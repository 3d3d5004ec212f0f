# RayVault verification model

RayVault is a C library for packages of optical time-domain reflectometer measurements.  A package is a little-endian
image: a 64-byte header, a section directory and up to ten sections (names, routes, instruments, calibrations, windows,
waves, markers, links, notes and a summary).  The library parses images phase by phase, builds indexes over the tables,
serves waveform slices through a small cache with pins, queries and compares packages, repairs, merges and migrates
them, and writes images again with two independent writers.

This project models that behaviour in Dafny and proves where its parts agree:

- **Codec** (`types`, `endian`, `crc`, `buffers`, `tableformat`, `records`, `sections`, `image`, `reader`, `parser`,
  `roundtrip`, `export`, `builder`).  Both writers are proved to write exactly a specified image, the phased parser to
  compute exactly a specified decoding, and the two specifications to be inverse: the round-trip theorems say for all
  tables, options and both strictness modes what a parse of a written image gives, failures included.
  `layout`, `imagelayout` and `writtenlayout` say which bytes all this is about, and `damage` what the checksums are
  for: one changed byte under a stored checksum never passes.
- **Dictionary** (`dict`).  The open-addressing hash table agrees with a scan, for every hash function.
- **Index and queries** (`floats`, `index`, `querymeans`).  Growing id maps agree with a scan of the tables, and so do
  queries.
- **Cache and its clients** (`lru`, `cache`, `stream`, `session`, `traces`).  The slot array refines an abstract LRU
  machine, and no run of warming, evicting, reading and streaming can tell what the cache holds, exactly when blocks with
  equal ids look alike.
- **Arena** (`arena`).  Alignment, doubling growth, mark, rewind and reset keep live blocks apart and intact.
- **Table transformations** (`xref`, `merge`, `mergerefs`, `mergesides`, `normalize`, `repair`, `readable`, `package`,
  `validate`, `diff`, `topk`, `topexact`).  What merging, normalising, repairing, migrating, comparing and selecting do
  to tables and references.  `mergerows`, `repairmeans`, `validmeans`, `diffmeans` and `topmeans` say it once more without
  any function of the model, in the fields of the tables and in reals; `positions` has what filters have in common.

C integers are mathematical integers with their width's range; wrap-around is written out where the code relies on it
(`id + bias`, the directory's range check, the epoch and the generation, truncated section lengths).  A `float` is its
32-bit pattern, given its IEEE 754 value only where the library compares; a comparison with a NaN is false, as in C.
Objects that the library updates in place are classes and arrays; each of their methods is proved against a function of
the old state.

## Where the code and its documentation differ

The model follows the code.

- `src/internal/rv_arena.h` promises addresses that stay valid until a reset, but growth uses `realloc`
  (`src/internal/rv_arena.c:90-94`).  Blocks are therefore offsets, and it is their bytes that are proved to stay.
- `docs/compatibility.md` says that major version 1 is accepted with `RV_OPEN_ALLOW_LEGACY`.  The reader accepts it with
  or without the flag (`src/internal/rv_reader.c:20-29`).
- An export carries no NOTE section, and a strict parse requires one.  So no export, and no migrated package, can be
  opened in the strict mode (`Export.ExportRoundTrip`, `Packages.MigrateThenReset`).
- The feature bit that `docs/compatibility.md` describes as marking a migrated package is set after the image was written
  (`src/internal/rv_legacy.c:108`), so the next reset removes it again (`Packages.MigrateThenReset`).
- A merge with remapping shifts every right-hand id, unset ones included, so an unset calibration becomes a reference to
  id 100000 (`MergeRefs.UnsetCalibrationBreaks`).  `MergeRefs.MergeKeepsReferences` has the exact condition.
- The index finds the last row of an id, the instrument and calibration scans the first (`src/internal/rv_xref.c:6-30`).
  So a left instrument 100001 takes over the windows of a right instrument 1 (`MergeSides.InstrumentCrosses`).
- Comparing a package with itself reports every route whose id is zero as removed and as added, and every marker that
  differs from the first one with its id as changed (`Diff.SelfDiff`, `Diff.SelfDiffReports`).
- A marker id that both sides of a comparison repeat can be changed in one direction only (`Diff.RepeatsMislead`).
- The marker selection reads a kept marker's loss from the first marker with its id, so shared ids whose
  losses differ mislead it (`TopLoss.DuplicateIdsMislead`); `TopExact.TopExactly` has the exact condition.
- The distance comparison of query results is not an order when a NaN meets two different distances
  (`Index.ResultsOrder`, `Index.NanMisleads`).

## Model

| member | source | states |
|---|---|---|
| Endian.Inverse32 | src/internal/rv_endian.h:12-18 | reading the four little-endian bytes at a place gives back a value exactly when they are the bytes it is written in |
| Endian.Inverse16 | src/internal/rv_endian.h:7-10 | the same for 16 bits |
| Endian.Inverse64 | src/internal/rv_endian.h:20-25 | the same for 64 bits, which the reader assembles from two halves |
| Crc.TableStep | src/internal/rv_crc.c:24-28 | one table look-up per byte equals eight steps of the bit-by-bit division of RFC 1952 section 8 |
| Crc.Chunks | src/internal/rv_crc.c:20-35 | the checksum of a concatenation is the checksum continued from the first part over the second |
| Crc.Engine.InitTable | src/internal/rv_crc.c:8-18 | fills all 256 entries with the bitwise remainder of their index |
| Crc.Engine.Crc32Update | src/internal/rv_crc.c:20-30 | the running table-driven checksum equals the bitwise one on every byte string and every start value |
| Buffers.GrownIsFirst | src/internal/rv_buf.c:45-50 | doubling a capacity reaches its first power-of-two multiple that suffices, exactly when that multiple can be represented |
| Buffers.Buf.Wrap | src/internal/rv_buf.c:23-33 | a buffer around given memory is full with its bytes, and owns it or not |
| Buffers.Buf.Reserve | src/internal/rv_buf.c:35-58 | nothing happens when there is room; otherwise the capacity becomes that doubling, from 64 for an empty buffer, and the contents stay, or it fails because a doubling would overflow or the memory is not its own |
| Buffers.Buf.Append | src/internal/rv_buf.c:60-73 | the new contents are the old ones followed by the source bytes; nothing changes for memory of others that is full, or beyond 2^63 bytes |
| TableFormat.DecodeWritten | src/internal/rv_section.c:120-152 | for every section format: a payload that begins with an encoding decodes to exactly the encoded records unless a limit rejects them, and every proper prefix of the encoding is rejected |
| TableFormat.DecodedFits | src/internal/rv_section.c:120-152 | what a decoder accepts is within the limits and, written again, no longer than the payload it came from |
| TableFormat.DecodeExactly | src/internal/rv_section.c:120-152 | a format without slack accepts exactly the payloads that begin with an encoding of the result |
| Records.RouteInverse | src/internal/rv_section.c:120-152 | a ROUT record and its 24 bytes determine each other; `Layout.RoutesRead` and `Layout.RoutesWritten` say which bytes |
| Records.RouteFormatExact | src/internal/rv_section.c:120-152 | the ROUT format satisfies the round-trip conditions with no slack |
| Records.InstInverse | src/internal/rv_section.c:154-187 | an INST record and its 24 bytes determine each other; `Layout.InstsRead` and `Layout.InstsWritten` say which bytes |
| Records.InstFormatExact | src/internal/rv_section.c:154-187 | the INST format satisfies the round-trip conditions with no slack |
| Records.CalibInverse | src/internal/rv_section.c:189-222 | a CLBR record and its 32 bytes determine each other; `Layout.CalibsRead` and `Layout.CalibsWritten` say which bytes |
| Records.CalibFormatExact | src/internal/rv_section.c:189-222 | the CLBR format satisfies the round-trip conditions with no slack |
| Records.WindowInverse | src/internal/rv_section.c:224-261 | a WIND record and its 40 bytes determine each other; `Layout.WindowsRead` and `Layout.WindowsWritten` say which bytes |
| Records.WindowFormatExact | src/internal/rv_section.c:224-261 | the WIND format satisfies the round-trip conditions with no slack |
| Records.MarkerInverse | src/internal/rv_section.c:324-359 | a MARK record and its 32 bytes determine each other; `Layout.MarkersRead` and `Layout.MarkersWritten` say which bytes |
| Records.MarkerFormatExact | src/internal/rv_section.c:324-359 | the MARK format satisfies the round-trip conditions with no slack |
| Records.LinkInverse | src/internal/rv_section.c:361-393 | a LINK record and its 24 bytes determine each other; `Layout.LinksRead` and `Layout.LinksWritten` say which bytes |
| Records.LinkFormatExact | src/internal/rv_section.c:361-393 | the LINK format satisfies the round-trip conditions with no slack |
| Records.NoteInverse | src/internal/rv_section.c:395-426 | a NOTE record and its 20 bytes determine each other; `Layout.NotesRead` and `Layout.NotesWritten` say which bytes |
| Records.NoteFormatExact | src/internal/rv_section.c:395-426 | the NOTE format satisfies the round-trip conditions with no slack |
| Records.NameFormatValid | src/internal/rv_section.c:40-97 | length-prefixed names with their padding byte satisfy the round-trip conditions |
| Records.WaveInverse | src/internal/rv_section.c:263-322 | a wave block, samples included, and its bytes determine each other up to the 16 bits kept of flags and checksum |
| Records.SamplesInverse | src/internal/rv_section.c:303-309 | a row of 16-bit samples and its little-endian bytes determine each other, negative samples included |
| Records.WaveFormatExact | src/internal/rv_section.c:263-322 | the nested variable-length WAVE format satisfies the round-trip conditions, its sample limit included |
| Records.SummInverse | src/internal/rv_section.c:428-445 | a summary is decoded from a payload exactly when the payload begins with its forty bytes |
| Sections.DecodeFixed | src/internal/rv_section.c:120-152 | the cursor loop over records of one size, with its single length check, equals record-by-record decoding |
| Sections.DecodeVariable | src/internal/rv_section.c:263-322 | the cursor loop over records of varying size equals record-by-record decoding and fails on any truncation |
| Sections.DecodeSnam | src/internal/rv_section.c:40-118 | the names are decoded and a complete hash table is built over them, for every hash function |
| Sections.WriteNames | src/internal/rv_export.c:58-77 | the writer appends exactly the table encoding |
| Sections.WriteFixed | src/internal/rv_builder.c:220-237 | the writers of one-size records append exactly the table encoding |
| Sections.WriteWaves | src/internal/rv_export.c:160-188 | the writer appends exactly the encoding of all blocks, or of an empty table when samples are left out |
| Dict.ProbeFindsFree | src/internal/rv_section.c:99-114 | with a free bucket no probe sequence runs through the whole table, so the probe bound is never what stops it |
| Dict.BuildBuckets | src/internal/rv_section.c:99-114 | every name is placed so that only earlier entries are met before it, and a free bucket remains |
| Dict.ByStr | src/internal/rv_dict.c:18-36 | finds a string exactly when some name has those bytes, and then the earliest in table order: the answer of a plain scan |
| Dict.FirstById | src/internal/rv_dict.c:6-16 | the scan by id returns the first entry with the id, or none when there is none |
| Image.HeaderReadBack | src/internal/rv_export.c:8-43 | a written file header is read back field by field |
| Image.EntryInverse | src/internal/rv_format.c:67-77 | a directory entry and its 24 bytes determine each other |
| Image.ImageParts | src/internal/rv_export.c:357-378 | an image is header, directory and bodies with nothing between them, and its length is the computed total |
| Image.EntryInImage | src/internal/rv_export.c:45-56 | directory entry i stands at its place in the image |
| Image.BodyInImage | src/internal/rv_export.c:278-391 | the bytes of body i stand at its running payload offset |
| Image.Assemble | src/internal/rv_export.c:357-391 | the exporter's buffers are assembled to exactly the image, and this fails only beyond 2^63 bytes |
| Reader.LoadedEntryMaps | src/internal/rv_reader.c:43-47 | a range-checked entry can be mapped unless offset plus length wraps past 2^64, the one gap of the check |
| Reader.LoadedEntryDoesNotMap | src/internal/rv_reader.c:43-47 | an image in which that gap is met: its directory loads, and its one section cannot be mapped |
| Reader.PackageReader.LoadDirectory | src/internal/rv_reader.c:10-51 | succeeds exactly on a valid header of major version 1 or 2 with all entries in range, loads those entries and never writes past the directory array |
| Reader.PackageReader.ReloadDirectory | src/internal/rv_legacy.c:24-43 | the reload accepts the same headers without version or range checks |
| Reader.PackageReader.FindSection | src/internal/rv_reader.c:159-175 | returns the first entry with a tag |
| Parser.StepParser.LocateSection | src/internal/rv_parser.c:44-78 | missing, in error, or a payload: optional sections and unverified checksums are tolerated unless strict; `ImageLayout.ImageReadExactly` says so in bytes |
| Parser.StepParser.Step | src/internal/rv_parser.c:132-195 | one phase adds one table, or fails without changing the tables; the phase reached is the section's, or an error except for SUMM; step 12 is the end |
| Parser.StepsParseAll | src/internal/rv_parser.c:132-195 | the twelve steps together equal parsing all ten sections at once |
| Parser.StepParser.Run | src/internal/rv_parser.c:197-210 | a run succeeds exactly when every section decodes, and then holds all tables and an indexed dictionary; otherwise it holds the tables of the steps before the failing one; `Damage.RunStrict` says what a strict run demands of every checksum |
| RoundTrip.AssembledLoads | src/internal/rv_reader.c:10-51 | every assembled image of a supported version loads: the header checksum verifies, the total size is the length, and the directory is the one written |
| RoundTrip.LocatesSection | src/internal/rv_parser.c:44-78 | a section is found whole with a verified checksum when its length fits 32 bits; a longer one is cut, or rejected when strict |
| RoundTrip.SectionReadBack | src/internal/rv_parser.c:44-89 | a written table is read back exactly when it is within the record limits and shorter than 2^32 bytes; otherwise it is rejected, strict or not |
| RoundTrip.SummReadBack | src/internal/rv_parser.c:111-130 | a written summary is read back in every mode |
| RoundTrip.LayoutVerifies | src/internal/rv_export.c:278-391 | the bodies tile the image after the directory without gap or overlap and every directory checksum verifies |
| Export.ExportRoundTrip | src/internal/rv_export.c:278-391 | for all tables: a non-strict parse of an export gives back every table, with wave flags and checksums in 16 bits and without notes, exactly when the tables are within the reader's limits; a strict parse always fails |
| Export.CoreReadBack | src/internal/rv_export.c:278-348 | each of the first eight tables is read back independently, or rejected |
| Export.BuildCore | src/internal/rv_export.c:290-348 | the section buffers hold exactly the eight table encodings |
| Export.ExportBuild | src/internal/rv_export.c:278-391 | the exporter writes exactly the specified image, taking the derived counts when there are some |
| Builder.Key | src/internal/rv_builder.c:78-101 | the pooled form of a string is the string itself exactly when it has at most 127 bytes and no NUL |
| Builder.IdOf | src/internal/rv_builder.c:86-91 | the id under which a pool holds a key, zero exactly when it does not |
| Builder.AddKeyPools | src/internal/rv_builder.c:78-101 | adding a name keeps ids and strings free of repetition and makes the string findable |
| Builder.PackageBuilder.AddName | src/internal/rv_builder.c:78-101 | pooling a string twice gives the same id and changes nothing; a new string gets the next id |
| Builder.PackageBuilder.AddWaveCopy | src/internal/rv_builder.c:150-174 | an empty block is refused; otherwise a copy without flags is appended |
| Builder.PackageBuilder.Serialize | src/internal/rv_builder.c:405-507 | the serializer writes exactly the builder's image and fails only beyond 2^63 bytes |
| Builder.BuilderRoundTrip | src/internal/rv_builder.c:405-507 | for all tables and options: the image parses exactly when the major version is 1 or 2, the tables are within the limits and, when strict, notes are included; the result is the builder's tables with matching counts |
| Floats.BelowIsOrder | src/internal/rv_query.c:14-23 | comparing stored floats is a strict weak order on all values that are not NaN |
| Index.LastPos | src/internal/rv_index.c:132-166 | the reference scan: the last position of a non-zero id |
| Index.Grow | src/internal/rv_index.c:15-40 | doubling an id map keeps all look-ups and works exactly up to 2^30 slots |
| Index.IdMapPut | src/internal/rv_index.c:15-40 | entering an id makes the map agree with a scan of one more id, and fails exactly for ids of 2^30 and above |
| Index.PackageIndex.Build | src/internal/rv_index.c:42-130 | building succeeds exactly when all route, window and wave ids are below 2^30, and then describes the tables |
| Index.PackageIndex.FindWindow | src/internal/rv_index.c:132-142 | agrees with a scan of the window table |
| Index.PackageIndex.FindWave | src/internal/rv_index.c:144-154 | agrees with a scan of the wave table |
| Index.PackageIndex.FindRoute | src/internal/rv_index.c:156-166 | agrees with a scan of the route table |
| Index.PackageIndex.Passes | src/internal/rv_index.c:181-206 | the early-out filter equals the conjunction of its conditions, window look-ups included |
| Index.PackageIndex.QueryMarkers | src/internal/rv_index.c:168-224 | counts exactly the markers a scan selects, writes the first of them in table order and leaves the rest of the output alone |
| Index.ResolveWave | src/internal/rv_xref.c:32-42 | resolves exactly when the window and its wave both exist |
| Index.KeepResolving | src/internal/rv_query.c:134-148 | the in-place compaction leaves exactly the matches whose wave resolves, in order |
| Index.MatchMarkers | src/internal/rv_query.c:117-148 | the first `limit` selected markers, with require_wave those of them whose wave resolves |
| Index.SortMarkers | src/internal/rv_query.c:149-152 | the final sort in place, by distance before severity: a sorted permutation by severity always, by distance when no NaN meets two different distances |
| Index.Execute | src/internal/rv_query.c:117-165 | what was found, sorted as asked for by any library sort that sorts what its comparison orders, and the ids of all windows of the filter's route in table order |
| Index.WindowsForRoute | src/internal/rv_query.c:36-52 | counts a route's windows and writes the ids of the first ones in table order |
| Index.ComparisonsOrder | src/internal/rv_query.c:14-34 | the severity comparison orders any three markers, the distance comparison exactly when no NaN stands between two decreasing distances |
| Index.ResultsOrder | src/internal/rv_query.c:14-34 | the severity comparison orders every result, the distance comparison exactly those without a NaN and those whose numbers are all one number |
| Index.NanMisleads | src/internal/rv_query.c:14-23 | a result of three that the distance comparison does not order |
| Lru.RunKeeps | src/internal/rv_cache.c:30-159 | every run of get, put, pin, unpin, evict and invalidate keeps the cache bounded with distinct ticks |
| Lru.NoVictim | src/internal/rv_cache.c:54-77 | there is nothing to evict exactly when every entry is pinned |
| Lru.EvictionIsLru | src/internal/rv_cache.c:54-77 | an eviction removes exactly the least recently touched unpinned entry and changes no other |
| Lru.PinnedSurvives | src/internal/rv_cache.c:54-159 | along every run a pinned entry stays cached and pinned until it is unpinned or everything is invalidated, and keeps its data until it is put again |
| Cache.StoreMirrors | src/internal/rv_cache.c:79-120 | writing one slot is one touch of the abstract cache, counter included |
| Cache.ClearMirrors | src/internal/rv_cache.c:54-77 | the oldest unpinned slot holds the abstract victim, and clearing it is the abstract eviction |
| Cache.WaveCache.constructor | src/internal/rv_cache.c:7-20 | an empty cache of capacity at least two |
| Cache.WaveCache.Invalidate | src/internal/rv_cache.c:30-42 | everything goes, pinned or not; the generation changes and is never zero |
| Cache.WaveCache.Find | src/internal/rv_cache.c:44-52 | the slot scan agrees with the abstract map, and an entry in use is always of the current generation |
| Cache.WaveCache.EvictLru | src/internal/rv_cache.c:54-77 | refines the abstract eviction; it fails exactly when all entries are pinned, and surviving slots are untouched |
| Cache.WaveCache.PutFromBlock | src/internal/rv_cache.c:79-120 | refines the abstract put; it fails exactly when there is no room and nothing to evict; `Lru.PutExactly` says what the put leaves entry by entry |
| Cache.WaveCache.Get | src/internal/rv_cache.c:122-141 | hits exactly the cached ids and touches the entry |
| Cache.WaveCache.SetPin | src/internal/rv_cache.c:143-159 | sets or clears one flag, and succeeds exactly for cached ids |
| Stream.PutSucceeds | src/internal/rv_cache.c:79-120 | with at most one pin and capacity at least two, a put never fails |
| Stream.FreeAfterEviction | src/internal/rv_stream.c:69-71 | after the forced eviction a slot is free |
| Stream.PinnedNotEvicted | src/internal/rv_stream.c:49-79 | the pinned slot behind the slice survives the forced eviction |
| Stream.Fetch | src/internal/rv_stream.c:54-60 | get, or put and get, never fails and finds a slot that shows what was cached under the id, or else the block; `Stream.TracesMean` says in fields what showing is |
| Stream.FillSlice | src/internal/rv_stream.c:49-79 | the slice shows the block, only this block is pinned, its entry is still cached, a free slot remains, and nothing else happened to the cache; `Stream.TracesMean` says in fields what that means |
| Stream.WaveStream.constructor | src/internal/rv_stream.c:7-37 | the stream's order is the route's windows in table order |
| Stream.WaveStream.NextWindow | src/internal/rv_stream.c:39-47 | advances through the order one window at a time |
| Stream.WaveStream.NextWave | src/internal/rv_stream.c:81-108 | succeeds exactly when the window's wave resolves and the cache was not invalidated since opening; the slice shows the block whatever was cached, with the samples, start, step and window id of the block that the id leads to |
| Stream.WaveStream.Close | src/internal/rv_stream.c:110-117 | closing leaves no pin behind |
| Stream.WaveStream.Walk | tests/test_stream_cache.c:111-114 | when blocks with equal ids look alike, a full walk delivers exactly the blocks of the route's windows in table order, for every capacity and every previous cache content; `Traces.WalkTraces` says so field by field |
| Stream.ShowsTheBlock | src/internal/rv_stream.c:73-78 | when the blocks of an id look alike, a slice that shows some block of that id equals the table's block |
| Stream.ShownExactly | src/internal/rv_stream.c:54-60 | every id shows the block that it leads to, whatever a coherent cache holds, exactly when blocks with equal non-zero ids look alike |
| Session.WaveGet | src/rayvault.c:513-540 | found exactly when the id resolves, and the slice shows what is cached under the id, or else the block, with the samples, start, step and window id of the block that the id leads to |
| Session.WarmHolds | src/rayvault.c:320-341 | warming an empty cache evicts nothing: it holds the first blocks of the table, as many as fit |
| Session.WarmCache | src/rayvault.c:320-341 | the cache becomes what putting blocks in order until full makes of it, and stays coherent |
| Session.Rebind | src/internal/rv_session_ops.c:59-84 | refused exactly for a package that is not open or has an id of 2^30 or above; the index describes the tables; without retaining, the cache is emptied, every open stream will notice, and the derived summary is dropped |
| Session.Call | src/rayvault.c:513-540 | when blocks with equal ids look alike, each call on the real cache answers what the tables and the stream position alone determine; `Traces.ServeTraces` says field by field what it holds |
| Session.Serve | src/internal/rv_stream.c:7-108 | any run of warming, evicting, direct reads and stream calls is answered from the tables alone, for every capacity: the cache is invisible when blocks with equal ids look alike; `Traces.ServeTraces` says field by field what each reply holds |
| Session.Cursor.Seek | src/internal/rv_stream.c:132-146 | moves to the window and its block exactly when both resolve, and stays otherwise |
| Session.Cursor.Read | src/internal/rv_stream.c:148-167 | reads the block the cursor stands on, whatever the cache holds and even after an invalidation, with its samples, start, step and window id |
| Session.Cursor.Advance | src/internal/rv_stream.c:169-184 | moves to the window, and its block, of the row after the first one with the current id, exactly when that row's wave resolves |
| Session.AdvanceThenRead | src/internal/rv_stream.c:148-184 | a read after an advance shows the block of the window advanced to; `Traces.CursorAnswersMean` says so in fields |
| Session.ServeCursor | src/internal/rv_stream.c:119-193 | any run of seeks, advances, reads, warming and evicting is answered from the tables and the cursor's position alone, for every capacity, under the same condition; `Traces.ServeCursorTraces` says field by field what each reply holds |
| Session.Cursor.Close | src/internal/rv_stream.c:186-193 | closing leaves no pin behind |
| Arena.MaskRoundsDown | src/internal/rv_arena.c:11-17 | for an alignment that passes the bit test, masking rounds down to a multiple of it |
| Arena.AlignUp | src/internal/rv_arena.c:6-18 | both paths give the least multiple of the alignment that is not below the value |
| Arena.AlignUpInSizeT | src/internal/rv_arena.c:6-18 | for all 64-bit values and alignments, wrapping additions give the same result exactly when it is below 2^64 |
| Arena.AlignedFits | src/internal/rv_arena.c:6-18 | which it is while at most 2^63 bytes are in use |
| Arena.Doubled | src/internal/rv_arena.c:77-88 | growth reaches the need within the maximum |
| Arena.RunKeeps | src/internal/rv_arena.c:53-185 | after every run of alloc, rewind, reset and client writes the live blocks are aligned, apart and inside the used part, and that inside the arena |
| Arena.MarkRewind | src/internal/rv_arena.c:172-185 | mark, any run that stays above the mark, rewind: exactly the blocks and the used part of the mark are back |
| Arena.ArenaBuf.constructor | src/internal/rv_arena.c:20-42 | the initial and maximum sizes with their defaults |
| Arena.ArenaBuf.Grow | src/internal/rv_arena.c:69-98 | succeeds exactly when the need is within the maximum, and the contents move along |
| Arena.ArenaBuf.Alloc | src/internal/rv_arena.c:100-126 | a non-empty request succeeds exactly when its aligned end is within the maximum; the block is aligned and apart from all others, and no live block changes its bytes, growth included |
| Arena.ArenaBuf.Calloc | src/internal/rv_arena.c:128-140 | refuses exactly what overflows or does not fit; the block is zeroed and no other block changes |
| Arena.ArenaBuf.Rewind | src/internal/rv_arena.c:179-185 | surviving blocks keep their bytes; a mark above the used part changes nothing |
| Arena.AboveKeepsLive | src/internal/rv_arena.c:172-185 | a run that stays above a mark takes back no block from before it, at any point of the run |
| Arena.ArenaBuf.RunOps | src/internal/rv_arena.c:53-185 | along every run a block that stays live and is not written by the client keeps its bytes, however often the arena grows and moves |
| Arena.ArenaBuf.Scoped | src/internal/rv_arena.c:172-185 | mark, run, rewind: the live blocks and the used part of the mark are back, and blocks that the run did not write have their bytes |
| Arena.ArenaBuf.Reset | src/internal/rv_arena.c:53-61 | nothing is live any more; the epoch changes and is never zero, and nothing is used |
| Arena.FitsSizeT | src/internal/rv_arena.c:133-134 | the division test decides exactly whether the product overflows |
| Xref.FailuresZero | src/internal/rv_xref.c:59-176 | no failure is counted exactly when every reference of the package resolves |
| Xref.Validate | src/internal/rv_xref.c:59-176 | the check through the index counts the failures of a scan of the tables, and succeeds exactly when every reference resolves |
| Xref.FindInst | src/internal/rv_xref.c:6-17 | the first instrument with the id |
| Xref.FindCalib | src/internal/rv_xref.c:19-30 | the first calibration with the id |
| Xref.ResolveCalibForInst | src/internal/rv_xref.c:44-57 | the first calibration of the instrument |
| Xref.CheckWindow | src/internal/rv_xref.c:68-101 | the failures of one window: route, instrument, optional calibration, optional wave |
| Xref.CheckLink | src/internal/rv_xref.c:129-149 | the failures of one link |
| Xref.CheckRoutes | src/internal/rv_dict.c:51-72 | passes exactly when all route names exist; otherwise reports a missing name of the first route that has one |
| Xref.CheckInsts | src/internal/rv_dict.c:74-95 | the same for instruments |
| Xref.CheckMarkers | src/internal/rv_dict.c:97-112 | the same for marker labels |
| Merge.PoolAllKeeps | src/internal/rv_merge.c:40-45 | after all names of a side were added every one of them is pooled, and the pool stays free of repetition |
| Merge.MapNameInto | src/internal/rv_merge.c:17-32 | mapping a name never changes the pool at that point; zero and unknown ids become zero |
| Merge.MergeMarkers | src/internal/rv_merge.c:120-151 | markers without a window on their own side are dropped when asked for, all others kept in order |
| Merge.MergeWaves | src/internal/rv_merge.c:109-119 | blocks without samples are dropped, all others kept in order without flags |
| Merge.MergeSideInto | src/internal/rv_merge.c:34-180 | the loops append exactly the rewritten records of one side to every table; `MergeRows.MergedRows` says what each of them holds |
| Merge.MergeIntoBuilder | src/internal/rv_merge.c:182-207 | left without bias, then right with the bias of the options; `MergeRows.MergePackages` says row by row what the result holds |
| MergeRefs.MergedNameResolves | src/internal/rv_merge.c:17-45 | every known name id resolves in the merged table to the pooled form of the same string, to the same bytes exactly when it has at most 127 bytes and no NUL; later names do not disturb it |
| MergeRefs.MappedNameKnown | src/internal/rv_merge.c:17-32 | no name reference of a merged table dangles |
| MergeRefs.WindowFits | src/internal/rv_merge.c:93-108 | a window keeps its references exactly when its wave is unset or a kept block of either side has the id it ends up with, and for a right one the shifted route, instrument and calibration exist |
| MergeRefs.WaveFits | src/internal/rv_merge.c:109-119 | a kept left block keeps its window reference, a right one exactly when its shifted window exists or is zero |
| MergeRefs.MarkerFits | src/internal/rv_merge.c:120-151 | a marker whose window is in its own side's table keeps its reference exactly when the window is not zero, for a right one after the shift |
| MergeRefs.DroppingMends | src/internal/rv_merge.c:135-147 | with unlinked markers dropped, the merged markers of any two packages all resolve exactly when no kept one names window zero, after the shift on the right |
| MergeRefs.LinkFits | src/internal/rv_merge.c:152-163 | a left link keeps its references, a right one exactly when its shifted ids are not zero |
| MergeRefs.MergeSafeSuffices | src/internal/rv_merge.c:182-207 | merge-safe packages whose references resolve merge to tables whose references resolve, with and without remapping and for all left ids |
| MergeRefs.MergeKeepsReferences | src/internal/rv_merge.c:182-207 | for all options and all ids: of two packages whose references resolve, the merged references resolve exactly when every record fits |
| MergeRefs.RemapKeepsReferences | src/internal/rv_merge.c:182-207 | with remapping, left ids below 100000 and right ids that do not wrap, exactly when the packages are merge-safe |
| MergeRefs.UnshiftedKeepsReferences | src/internal/rv_merge.c:182-207 | without remapping, exactly when no block in use is dropped as empty on both sides |
| MergeRefs.UnsetCalibrationBreaks | src/internal/rv_merge.c:99-99 | without the condition it fails: an unset calibration of a right window becomes id 100000 |
| MergeSides.LeftLast | src/internal/rv_index.c:132-166 | a last-match look-up stays in the left part of a joined table exactly when the right part does not have the id |
| MergeSides.RightLast | src/internal/rv_index.c:132-166 | and one of a shifted right id always stays in the right part, unless it wraps to zero |
| MergeSides.LeftFirst | src/internal/rv_xref.c:6-30 | a first-match look-up gives what it gave in the left part exactly when the left part has the id or the right one does not |
| MergeSides.RightFirst | src/internal/rv_xref.c:6-30 | and one of a shifted right id gives the right position exactly when the left part does not have it |
| MergeSides.LeftStaysLeft | src/internal/rv_merge.c:34-180 | a left route or window id leads to the image of the left record it led to, or to nothing as before, for all ids that no shifted right record has |
| MergeSides.LeftWavesStayLeft | src/internal/rv_merge.c:109-119 | the same for wave blocks that are kept |
| MergeSides.RightStaysRight | src/internal/rv_merge.c:34-180 | a right route or window id leads to the image of the right record, whatever the left side has, unless the shift wraps it to zero |
| MergeSides.RightWavesStayRight | src/internal/rv_merge.c:109-119 | the same for wave blocks that are kept |
| MergeSides.KeptFinds | src/internal/rv_merge.c:109-119 | dropping empty blocks leaves a block reference where it was exactly when it led to a block with samples or to none |
| MergeSides.LeftInstrument | src/internal/rv_xref.c:6-17 | a left instrument id leads to the image of the left record it led to |
| MergeSides.LeftCalibration | src/internal/rv_xref.c:19-30 | the same for the calibration that a window names |
| MergeSides.LeftCalibrationFor | src/internal/rv_xref.c:44-57 | the same for the calibration of an instrument |
| MergeSides.RightInstrument | src/internal/rv_xref.c:6-17 | a right instrument id leads to the image of the right record exactly when no left record has the shifted id; otherwise to that left record |
| MergeSides.RightCalibration | src/internal/rv_xref.c:19-30 | the same for the calibration that a window names |
| MergeSides.RightCalibrationFor | src/internal/rv_xref.c:44-57 | the same for the calibration of an instrument |
| MergeSides.RoutesApart | src/internal/rv_index.c:156-166 | with remapping, left route ids below 100000 and right ones that do not wrap, a route id that leads somewhere leads to the image of the record it led to on its own side |
| MergeSides.WindowsApart | src/internal/rv_index.c:132-142 | the same for window ids |
| MergeSides.BlocksApart | src/internal/rv_index.c:144-154 | the same for block ids; a block dropped as empty on its own side is not replaced by one of the other |
| MergeSides.NoReferenceCrosses | src/internal/rv_acqmeta.c:15-34 | under that condition on all ids, a merged window's route, instrument, calibration and block are the images of what they were on its own side |
| MergeSides.NoWindowReferenceCrosses | src/internal/rv_merge.c:109-151 | the same for the windows of markers and blocks |
| MergeSides.NoLinkCrosses | src/internal/rv_merge.c:152-163 | the same for the routes and windows of links |
| MergeSides.InstrumentsApart | src/internal/rv_xref.c:6-17 | with left instrument ids below 100000 and right ones that do not wrap, an instrument id that leads somewhere leads to the image of the record it led to on its own side |
| MergeSides.CalibrationsApart | src/internal/rv_xref.c:19-30 | the same for calibration ids |
| MergeSides.CalibrationsForApart | src/internal/rv_xref.c:44-57 | the same for the calibrations of instruments |
| MergeSides.InstrumentCrosses | src/internal/rv_merge.c:93-108 | without it one can cross: with a left instrument 100001 the merged window of a right instrument 1 reads the left one, although all references resolve |
| MergeRefs.MergedImageOpens | src/internal/rv_merge.c:182-207 | merge, serialize, strict parse: the file opens, and all its references resolve exactly when every record fits |
| Normalize.SortIsStable | src/internal/rv_normalize.c:12-25 | the result is a sorted permutation in which windows of one id keep their order |
| Normalize.SortKeepsLookups | src/internal/rv_normalize.c:12-25 | sorting changes no look-up by id, because it is stable |
| Normalize.SiftDown | src/internal/rv_normalize.c:18-23 | the swaps of one insertion step put the window after all windows of smaller or equal id |
| Normalize.SortWindows | src/internal/rv_normalize.c:12-25 | the array is sorted in place |
| Normalize.NormalizeTables | src/internal/rv_normalize.c:27-61 | windows sorted, severities clamped, missing wave links filled from the only window, all in place |
| Normalize.NormalizeIdempotent | src/internal/rv_normalize.c:27-61 | normalising twice changes nothing more |
| Repair.CompactLinks | src/internal/rv_recover.c:35-58 | the in-place compaction leaves exactly the links that do not dangle, in order |
| Repair.RepairPackage | src/internal/rv_recover.c:18-74 | normalise, drop dangling links, rebuild the summary, as the options say |
| Repair.RepairIdempotent | src/internal/rv_recover.c:18-74 | repairing twice changes nothing more, for all options |
| Repair.RepairFixesCounts | src/internal/rv_recover.c:60-69 | a rebuilt summary passes the count check |
| Repair.NormalizeKeepsFailures | src/internal/rv_normalize.c:27-61 | normalisation leaves the number of cross-reference failures as it was |
| Repair.RepairNeverWorse | src/internal/rv_recover.c:18-74 | repair never increases the number of cross-reference failures |
| Readable.PartlyParsedRewritable | src/internal/rv_parser.c:132-195 | whatever the parser holds at any point of a run a writer can write, and the parser accepts it again unchanged |
| Readable.ParsedIsRewritable | src/internal/rv_parser.c:197-210 | the same for a parsed package |
| Readable.NormalizedRewritable | src/internal/rv_normalize.c:27-61 | and stays so when normalised |
| Readable.RepairedSettled | src/internal/rv_recover.c:18-74 | repair keeps a package rewritable and normal |
| Readable.ImageFits | src/internal/rv_legacy.c:73-80 | the export inside a migration can never fail on an opened package |
| Packages.Package.Open | src/rayvault.c:135-161 | opening from memory succeeds exactly when the image parses in its mode, and holds the normalised tables; `RepairMeans.OpenPackage` says so in bytes and fields |
| Packages.Package.Reset | src/rayvault.c:176-182 | a reset parses the current image again, so that the samples can be read; it fails exactly when the package is not open or that parse fails, and then the package holds the tables before the failing section |
| Packages.Package.RepairInPlace | src/rayvault.c:725-737 | the default repair of any open package, refused otherwise; a normal package stays normal |
| Packages.Package.MigrateLegacy | src/rayvault.c:739-755 | while the samples can be read: refused exactly for a package that is not open, or is current and without the legacy flag; otherwise the backing is the export of the tables and the tables stay, with one feature bit set, but their samples can no longer be read |
| Packages.MigratedReadsBack | src/internal/rv_legacy.c:51-116 | the migrated image reads back as the same tables but notes and summary; never in the strict mode |
| Packages.MigrateThenReset | src/internal/rv_legacy.c:51-116 | while the samples can be read, migrate then reset normalises every table but notes and summary and leaves them as they were if they were normal, the migration feature bit not surviving; in the strict mode the reset always fails |
| Packages.AssembledVerifies | src/internal/rv_validate.c:20-39 | every assembled image is consistent with its header and all its checksums verify |
| Packages.ExportValidates | src/internal/rv_validate.c:115-158 | a package that passes the table checks is exported to an image that passes full validation when reopened |
| Packages.ExportedCounts | src/internal/rv_validate.c:41-71 | an exported summary passes the count check exactly unless a compact export left blocks out |
| Validate.CheckSummCounts | src/internal/rv_validate.c:41-71 | passes exactly when every non-zero stored count is the table's |
| Validate.CheckRanges | src/internal/rv_validate.c:73-113 | passes exactly when all lengths, pulses, ranges, steps and distances are in range; a NaN passes |
| Validate.ValidatePackage | src/internal/rv_validate.c:115-158 | passes exactly when header, checksums, names, references, counts and ranges all do, as the options ask; `ValidMeans.ValidateTables` says so check by check |
| Diff.DiffPackages | src/internal/rv_diff.c:36-130 | the capacity guard drops no entry: the report is complete, in order, and its five counters add up to its length; `DiffMeans.ReportPackages` says what each entry means |
| Diff.SelfDiff | src/internal/rv_diff.c:36-130 | a package compared with itself gives an empty report exactly when no route has id zero and no marker differs from the first one with its id |
| Diff.SelfDiffReports | src/internal/rv_diff.c:36-130 | a package that differs from itself: its one route has id zero |
| Diff.DistinctSelfDiff | src/internal/rv_diff.c:36-130 | with distinct marker ids, exactly when no route has id zero |
| Diff.DualExactly | src/internal/rv_diff.c:36-130 | for all tables: the flipped report is the opposite report, as a multiset, exactly when the flipped changed markers are those of the opposite report; all other entries always are |
| Diff.DiffDual | src/internal/rv_diff.c:36-130 | when no marker id that both sides have is repeated, swapping the sides swaps added with removed and negates the deltas: the flipped entries are the opposite report as a multiset |
| Diff.CountersDual | src/internal/rv_diff.c:36-130 | for all tables, swapping the sides swaps the counters of added and removed routes and markers; it keeps the number of changed markers when no id that both sides have is repeated |
| Diff.RepeatsMislead | src/internal/rv_diff.c:76-106 | with a repeated id one marker is changed in one direction and none in the other |
| TopLoss.TopLossMarkers | src/internal/rv_analytics.c:84-137 | the output rows are those of the selection process, for all inputs |
| TopLoss.WorstRow | src/internal/rv_analytics.c:102-120 | the inner loops find the first row with the lowest loss |
| TopLoss.KeptAreTop | src/internal/rv_analytics.c:84-137 | for losses that are numbers, and equal where ids are, the kept markers are distinct, as many as fit, and none left out has a greater loss |
| TopExact.TopExactly | src/internal/rv_analytics.c:84-137 | for losses that are numbers the selection is right, for every capacity and whatever markers of new ids follow, exactly when markers with equal ids have equal losses |
| TopLoss.DuplicateIdsMislead | src/internal/rv_analytics.c:107-119 | with a shared id of two losses the marker of the greatest loss can be dropped for a lesser one |
| Layout.NamesRead | src/internal/rv_section.c:40-97 | in bytes: a payload is accepted with this result exactly when it begins with `NAM1`, its count and limits fit, and every field of every row is the little-endian sum of the bytes at its place |
| Layout.NamesWritten | src/internal/rv_export.c:58-77 | in bytes: the written table is exactly as long as its rows, begins with `NAM1` and the count, and has every field of every row at its place, low byte first |
| Layout.RoutesRead | src/internal/rv_section.c:120-152 | in bytes: a payload is accepted with this result exactly when it begins with `ROT1`, its count and limits fit, and every field of every row is the little-endian sum of the bytes at its place |
| Layout.RoutesWritten | src/internal/rv_export.c:79-96 | in bytes: the written table is exactly as long as its rows, begins with `ROT1` and the count, and has every field of every row at its place, low byte first |
| Layout.InstsRead | src/internal/rv_section.c:154-187 | in bytes: a payload is accepted with this result exactly when it begins with `NST1`, its count and limits fit, and every field of every row is the little-endian sum of the bytes at its place |
| Layout.InstsWritten | src/internal/rv_export.c:98-116 | in bytes: the written table is exactly as long as its rows, begins with `NST1` and the count, and has every field of every row at its place, low byte first |
| Layout.CalibsRead | src/internal/rv_section.c:189-222 | in bytes: a payload is accepted with this result exactly when it begins with `CLB1`, its count and limits fit, and every field of every row is the little-endian sum of the bytes at its place |
| Layout.CalibsWritten | src/internal/rv_export.c:118-136 | in bytes: the written table is exactly as long as its rows, begins with `CLB1` and the count, and has every field of every row at its place, low byte first |
| Layout.WindowsRead | src/internal/rv_section.c:224-261 | in bytes: a payload is accepted with this result exactly when it begins with `IND1`, its count and limits fit, and every field of every row is the little-endian sum of the bytes at its place |
| Layout.WindowsWritten | src/internal/rv_export.c:138-158 | in bytes: the written table is exactly as long as its rows, begins with `IND1` and the count, and has every field of every row at its place, low byte first |
| Layout.WavesRead | src/internal/rv_section.c:263-322 | in bytes: a payload is accepted with this result exactly when it begins with `AVE1`, its count and limits fit, and every field of every row is the little-endian sum of the bytes at its place |
| Layout.WavesWritten | src/internal/rv_export.c:160-188 | in bytes: the written table is exactly as long as its rows, begins with `AVE1` and the count, and has every field of every row at its place, low byte first |
| Layout.MarkersRead | src/internal/rv_section.c:324-359 | in bytes: a payload is accepted with this result exactly when it begins with `MRK1`, its count and limits fit, and every field of every row is the little-endian sum of the bytes at its place |
| Layout.MarkersWritten | src/internal/rv_export.c:190-210 | in bytes: the written table is exactly as long as its rows, begins with `MRK1` and the count, and has every field of every row at its place, low byte first |
| Layout.LinksRead | src/internal/rv_section.c:361-393 | in bytes: a payload is accepted with this result exactly when it begins with `LNK1`, its count and limits fit, and every field of every row is the little-endian sum of the bytes at its place |
| Layout.LinksWritten | src/internal/rv_export.c:212-229 | in bytes: the written table is exactly as long as its rows, begins with `LNK1` and the count, and has every field of every row at its place, low byte first |
| Layout.NotesRead | src/internal/rv_section.c:395-426 | in bytes: a payload is accepted with this result exactly when it begins with `NTE1`, its count and limits fit, and every field of every row is the little-endian sum of the bytes at its place |
| Layout.NotesWritten | src/internal/rv_builder.c:367-386 | in bytes: the written table is exactly as long as its rows, begins with `NTE1` and the count, and has every field of every row at its place, low byte first |
| Layout.SummRead | src/internal/rv_section.c:428-445 | in bytes: a summary is decoded exactly from `UMM1` and eight fields at their places |
| Layout.SummWritten | src/internal/rv_export.c:231-271 | in bytes: a written summary is forty bytes with every field at its place |
| ImageLayout.HeaderReadExactly | src/internal/rv_format.c:29-65 | in bytes: a header is accepted exactly when it begins with `RVPK`, its directory lies inside the image, and its checksum is zero or that of the header with the checksum bytes zeroed; every field comes from its place |
| ImageLayout.LoadExactly | src/internal/rv_reader.c:10-51 | in bytes: which images load, range check with its wrap-around included, and what each directory entry holds |
| ImageLayout.ImageReadExactly | src/internal/rv_parser.c:132-195 | in bytes: an image parses to a package exactly when it loads and each section word leads to a table with the rows of the package; strictly, when it is there and its checksum is zero or that of its bytes |
| WrittenLayout.ExportWritten | src/internal/rv_export.c:278-391 | in bytes: an export has the header of version 2.3, nine directory entries with their words, offsets, lengths and checksums, and the rows of the eight tables and the counts behind them |
| WrittenLayout.BuilderWritten | src/internal/rv_builder.c:405-507 | in bytes: the same for the serializer, with the version and time given, the notes and the summary that the options ask for, and in each block the checksum of its samples |
| Crc.DivisionStep | src/internal/rv_crc.c:13-14 | one division step moves every bit down by one place and, when a one falls out, flips the places of the generator's exponents |
| Crc.PolyBits | src/internal/rv_crc.c:14-14 | the bits of the feedback constant are, in reverse, the exponents 26, 23, 22, 16, 12, 11, 10, 8, 7, 5, 4, 2, 1 and 0 of the generator |
| Crc.XorBit | src/internal/rv_crc.c:14-27 | exclusive or, bit by bit |
| Crc.ComplementBits | src/internal/rv_crc.c:25-29 | complementing flips each of the 32 bits |
| Damage.RegistersDiffer | src/internal/rv_crc.c:20-30 | two different registers stay different along every byte string |
| Damage.OneByteCounts | src/internal/rv_crc.c:20-35 | a change of one byte always changes the checksum |
| Damage.StrictParseIntact | src/internal/rv_parser.c:44-78 | a strict parse succeeds only when the first entry of each of the nine table words has checksum zero or that of its bytes |
| Damage.StrictRunRefuses | src/internal/rv_parser.c:63-72 | an entry that is first of its tag and has a wrong non-zero checksum makes a strict parse fail |
| Damage.RunStrict | src/internal/rv_parser.c:197-210 | the same of the phased run |
| Damage.ValidationRefuses | src/internal/rv_validate.c:131-139 | an entry with a wrong non-zero checksum, wherever it stands, makes a validation with checksums fail |
| Damage.DamageRefused | src/internal/rv_reader.c:194-199 | every change of one byte in a written section body with a non-zero checksum: the image still loads, but a strict parse refuses it if it is a table, and a validation of checksums in any case |
| Damage.HeaderDamageRefused | src/internal/rv_format.c:61-64 | every change of one byte under a non-zero header checksum makes the image unreadable |
| Stream.TracesMean | src/internal/rv_stream.c:73-78 | a slice shows a block of an id exactly when its four fields are those of some block with the id, and blocks look alike exactly when these fields are equal |
| Stream.LeadsExactly | src/internal/rv_index.c:144-154 | an id leads to the last block that has it |
| Traces.OrderExactly | src/internal/rv_stream.c:20-35 | a stream's order is exactly the positions of the route's windows, ascending; route zero stands for all |
| Traces.AnswersMean | src/internal/rv_stream.c:39-108 | each reply of a run: the window at the place that the number of calls so far determines, and with a trace the four fields of the block that the id leads to, exactly when it leads to one |
| Traces.ServeTraces | src/internal/rv_stream.c:7-108 | the same of the calls on the real cache, for every capacity, when blocks with equal ids have equal fields |
| Traces.WalkTraces | tests/test_stream_cache.c:111-114 | a full walk delivers in table order the four fields of the block of each of the route's windows that leads to one |
| Traces.CursorAnswersMean | src/internal/rv_stream.c:119-193 | each reply of a run of cursor calls, in rows and fields of the tables |
| Traces.ServeCursorTraces | src/internal/rv_stream.c:119-193 | the same of the calls on the real cache, for every capacity, when blocks with equal ids have equal fields |
| Traces.SameTracesAgree | src/internal/rv_stream.c:54-60 | the condition of these results compares the samples, start, step and window id of blocks with equal non-zero ids |
| Lru.PutExactly | src/internal/rv_cache.c:79-120 | what a put leaves, entry by entry: the view it was given, the newest time, the pin it had; only the oldest entry without a pin goes, and only from a full cache; it fails exactly when a full cache is all pinned |
| Lru.OthersExactly | src/internal/rv_cache.c:30-159 | hit, pin, eviction and invalidation, entry by entry |
| MergeRows.MergedRows | src/internal/rv_merge.c:34-207 | for any two packages and any builder: the merged tables are the rows there before, then the left, then the right rows; each name reference leads to the pooled form of the string it led to in its own package, or to nothing if it led to none; ids are shifted in 32 bits; all other fields are equal; only blocks without samples and, when asked, unlinked markers and notes are missing |
| MergeRows.MergePackages | src/internal/rv_merge.c:182-207 | the same of the loops as they run |
| MergeRows.KeyCut | src/internal/rv_builder.c:78-101 | the pooled form of a string is its bytes before the first NUL, at most 127 |
| DiffMeans.ReportMeans | src/internal/rv_diff.c:53-123 | the report, in order: the left routes that the right side does not have, the right ones that the left does not have, the left markers that are gone or apart from the first right one with their id, with deltas right minus left, and the new right markers; id zero is never found |
| DiffMeans.ReportPackages | src/internal/rv_diff.c:36-130 | the same of the comparison as it runs, and each counter is the number of entries of its sort |
| DiffMeans.ChangesExactly | src/internal/rv_diff.c:90-107 | for finite values, in reals: a left marker is reported as changed exactly when the rounded difference of the losses is above 0.05f in magnitude, or that of the distances above 1, or the severities differ; the deltas are right minus left, loss first |
| DiffMeans.OneSidedExactly | src/internal/rv_diff.c:53-123 | for all tables: the removals and additions reported are exactly the ids that one side has and the other does not |
| Floats.FloatParts | src/internal/rv_endian.h:27-33 | the value of a 32-bit pattern from its sign, exponent and fraction, in whole numbers: 2^149 times the value |
| Floats.FloatConstants | src/internal/rv_diff.c:96-97 | the patterns of 0.05f, 1.0f and 500.0f have these values |
| QueryMeans.WantedExactly | src/internal/rv_index.c:181-206 | the filter in fields and reals: zero fields ask nothing, and the route and instrument are those of the last window with the id |
| QueryMeans.FoundMeans | src/internal/rv_query.c:117-148 | what a query finds: the first wanted markers up to the limit, 1024 without one, and with require_wave those of them whose wave exists, each row with the fields of its marker |
| QueryMeans.SortedMeans | src/internal/rv_query.c:14-34 | sorted by severity means the most severe first, sorted by distance means ascending in reals |
| QueryMeans.Query | src/internal/rv_query.c:117-165 | the rows and window ids that a query delivers, in these terms |
| RepairMeans.NormalFormIs | src/internal/rv_normalize.c:27-61 | field by field: windows ascending by id and stable, severities above 100 become 100, a block without a window id gets that of the only window, all else equal |
| RepairMeans.RepairedMeans | src/internal/rv_recover.c:18-74 | option by option: of links from markers (kind 3) those whose marker exists are kept and all other links stay, the rebuilt summary counts the tables and is marked, all else as normalised |
| RepairMeans.OpenPackage | src/rayvault.c:135-161 | opening works exactly for the images that the format accepts, byte by byte, and the package then holds the normal form of what they say |
| RepairMeans.RepairPackageTables | src/rayvault.c:725-737 | the default repair of an open package, field by field |
| ValidMeans.ReferencesMean | src/internal/rv_xref.c:59-176 | every reference resolves, in fields: which zeros are allowed, and which ends of links are checked |
| ValidMeans.FailuresMean | src/internal/rv_xref.c:59-176 | the failures counted are the references that lead nowhere, one each, and one for each kind of record with a missing name |
| ValidMeans.RangesMean | src/internal/rv_validate.c:73-113 | the ranges in reals: lengths from 0 to 500, pulses, ranges and distances not negative, steps above zero; a NaN passes |
| ValidMeans.ValidateTables | src/internal/rv_validate.c:115-158 | the whole validation in these terms, with checksums over the bytes of the image |
| Arena.DoubledExactly | src/internal/rv_arena.c:77-88 | growth takes the first doubling that suffices, or the maximum when that doubling would pass it |
| Arena.AlignUpIsLeast | src/internal/rv_arena.c:6-18 | no multiple of the alignment lies between the value and the result |
| TopMeans.KeptRowsAfter | src/internal/rv_analytics.c:93-132 | for losses that are numbers, the process marker by marker: a free row is taken, or the first of the lowest rows when the loss is greater than the one read for it; that loss is read from the first marker with the id |
| TopMeans.TopRows | src/internal/rv_analytics.c:84-137 | the rows, field by field: those of different markers, as many as fit, and when losses are consistent none left out is greater in reals |

## Left out

- File input and output, reopening from disk, logging, notifications, plugins, checkpoints, reports, text export, batch
  processing and the compatibility wrappers: they move data without deciding anything about it.
- Plant reports, signal processing, statistics, filters, acquisition context, the string pool and the footer: easy counts,
  or questions of rounding.
- Memory exhaustion: `malloc`, `realloc` and the arena room of decoders and indexes are taken to suffice.  The arena's own
  refusal is modelled in `arena`.
- Aliasing: sample views that borrow from a backing image are values here, so nothing is said about views kept across a
  migration or a retained cache.
- Several streams or cursors at a time: a pin is one flag, so the pins of two clients would not add up.
- Table counters as 32-bit numbers in the cross-reference check, the diff and the builder: they are unbounded here, which
  only differs beyond 2^32 records.
- The 64-bit clock of the cache does not wrap around.
- Diagnostics, phase reporting beyond the parser's own phase, sections-seen and merge statistics counters.
- Look-up of a second or later section with the same tag; the parser never asks for one.
- A window's flags field: the decoder always sets it to zero and no writer stores it.
- The samples of a builder block added by reference, and the demo builder.
- The `synthesize_missing_names` and `prefer_right_on_conflict` options: the code ignores them.
- Host byte order of the 16-bit samples is taken to be little-endian, because the writers copy samples as they are.
- Index.IdMapPut: does not model the id 2^32 - 1, because `id + 1` wraps to zero there; ids from 2^30
  up to that one are shown to be refused.
- Merge.MergeIntoBuilder: does not model a name pool that would pass 2^32 - 2 entries.
- Diff.DiffPackages: the difference of two finite floats is rounded by an arbitrary function, so the result holds for
  rounding to nearest but the thresholds are not tied to one rounding.
- Arena.ArenaBuf.Alloc: does not model a wrap-around of `size_t` while aligning; by `Arena.AlignedFits` that needs more
  than 2^63 bytes in use.
- Packages.Package.MigrateLegacy: does not model a second migration before a reset.  The first one releases the image
  that the samples are views of (`src/internal/rv_legacy.c:92-93`), and the second would export them; the same holds for
  `Packages.MigrateThenReset`.
- Index.PackageIndex.Build: does not model tables that hold the id 2^32 - 1, for the reason given for `Index.IdMapPut`.
- Index.Execute: says nothing about the order in which the C library sorts distances that are not ordered.
- Session.Rebind: does not say how old the summary is that a retaining rebind keeps, only that it is kept as it is.
- TopLoss.KeptAreTop: losses that are NaN are excluded, because "greater" says nothing about them.
