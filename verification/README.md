# Package store: indexes, packing, paging

This project models how the satsolver library keeps package data, and proves what its parts rely on:
how dependencies are interned, indexed and ordered, how a repository is packed into a `.solv` file and
read back, and how packed pages are paged in.

Each part follows the form of its source: objects whose fields are updated become classes, in-place
algorithms keep their arrays, loops stay loops. Each is proved against a small independent definition:

* `LzFormat`, `LzDecompress`, `LzCompress`, `PageStore`: the page compressor against the meaning of its
  token format, and the page cache against the texts of the pages.
* `SatSort`: the quicksort, for any total preorder. The other parts sort with it.
* `Lexicographic`, `Evr`, `EvrOrder`: version comparison against keys in which numbers count by value.
* `HashChain`, `PoolId`: hash-consed relations against the list of different triples.
* `IdArray`: dependency lists in their arena against a pair of duplicate-free halves.
* `Dirpool`, `DirPath`: the directory forest and its links against the set of children and the path text.
* `DirUse`, `DirWrite`, `DirFile`: marking, renumbering, writing and reading directories against their
  component paths, from the texts of the writer to those of the reader.
* `WhatProvides`, `ShrinkProvides`, `ProvidesIndex`, `RelProviders`, `MatchFlags`: the provider index
  and the memoised relations against brute-force sets and overlapping version ranges.
* `Packing`, `PackDeps`, `PrefixCode`: numbers, difference-coded dependency arrays and shared string
  beginnings, each with its reader.
* `NeedId`, `NeedSort`, `NeedWrite`: counting, sorting and numbering ids, and the relations of a file
  against the expressions they stand for.
* `Fields`, `Serialize`, `Schemata`, `Merge`, `Internalize`, `SetAttr`, `ArrayAdd`, `ArrayCache`,
  `AttrStore`, `AttrRuns`: the attribute store as an overlay of pending values over packed ones, and its
  runs against one cell for every name of every entry.
* `Reorder`, `DiskUsage`: two in-place loops, a permutation and the inversion of subtree sums.

`Bytes` and `Pigeonhole` hold shared definitions. `dafny verify dfyconfig.toml` checks the whole project.

Where a property does not hold of the code on all inputs, the exact condition is proved:

* `EvrOrder.TransitiveIffProper`: an edition with a dash and nothing behind it ("1-") compares equal to
  "1-1" and to "1-2", which differ (`EvrOrder.DashAlone`). The comparison is transitive through exactly
  the other editions.
* `PackDeps.ArrayExact`: dependency arrays write differences plus one, of which 30 bits are kept. An array
  is read back exactly if all of these are below 2^30: 2^30 - 1 alone is not, and 2^30 - 2 followed by
  2^30 + 3 is (`PackDeps.WideAlone`).
* `Serialize.SerialExact`: a pending value is packed in full exactly if it is a number that is not negative,
  an array that is not empty and whose marked ids (`Packing.EofCodeIs`) are below 2^30, or of a type without
  numbers. `Serialize.SerialComplete` says what is kept otherwise, `AttrStore.InternalizeExact` what that
  means for a whole store.
* `Merge.OverlayExact`: a name that was stored under another key (another type, or a constant of another
  value) keeps showing the stored value, because the first key of the name is found (`AttrRuns.KeepOldType`).
* `AttrStore.Repodata.AddGroup`: an element added to an array is lost exactly if the last addition was to
  the same name, the store has not grown since, and the name was set to another type in between
  (`AttrRuns.LoseElement`); `AttrStore.Repodata.NeverLost` says when this cannot be.
* `Merge.MinusOneIsLost`, `Merge.MinusTwoIsIgnored`, `Serialize.EmptyArrayIsNoField`: a pending value of
  -1 or -2 is taken for a mark, and an empty array is written as nothing at all: no field follows for them.

The code and its comments disagree in two places, where the model follows the code. The comment above
the compressor says that repeats of length 2 are encoded; they never are (src/repopage.c:188-189). The
comment of `mkmask` asks for the smallest mask above num; the mask is at least twice num.

Integers are unbounded in the model except where the width matters: relation hashes are taken modulo
2^32, page references have 16 bits, packed numbers are 32-bit integers. Bitwise or of separate bit
fields is addition. Arrays that the source grows with `sat_extend` are sequences.

## Model

| member | source | states |
|---|---|---|
| LzFormat.DecodeAppend | src/repopage.c:44-86 | decoding a stream is decoding its tokens one after the other: what a prefix decodes to does not depend on what follows it |
| LzFormat.CopyBackRepeats | src/repopage.c:44-57 | a back reference that reaches into its own output repeats the bytes before it with the period of the offset |
| LzFormat.CopyBackSplit | src/repopage.c:499-546 | copying a reference in parts is the same as copying it at once, even where source and destination overlap |
| LzDecompress.Burst | src/repopage.c:499-519 | the unrolled copy of n < 17 bytes copies exactly n overlapping bytes |
| LzDecompress.CopyRef | src/repopage.c:487-546 | the copy loop for long references copies exactly the requested number of overlapping bytes |
| LzDecompress.ReadRef | src/repopage.c:441-485 | the length and offset read from each of the reference forms c, d, e, f and g are those of the format table |
| LzDecompress.Decompress | src/repopage.c:405-550 | for every well-formed stream, the output is exactly what the format says the stream means |
| LzCompress.FindMatch | src/repopage.c:103-173 | whatever the hash chains hold, a match that is found is a true repetition: the input at the two places is the same for its whole length |
| LzCompress.EmitRef | src/repopage.c:282-325 | the token written for a reference decodes to exactly that length and offset, and the encoder's assertions hold |
| LzCompress.EmitLiterals | src/repopage.c:229-278 | pending literals are written as ASCII tokens or literal runs that decode to exactly these bytes |
| LzCompress.Compress | src/repopage.c:90-402 | if n > 0 is returned, n is less than the room given and the first n bytes decode to exactly the input; room for five quarters of the input always suffices |
| LzCompress.RoundTrip | src/repopage.c:90-550 | decompressing what was compressed gives back the input, for every input of at most 65536 bytes |
| PageStore.Store.AllThere | src/repopage.c:580-588 | the quick check succeeds exactly if all pages of the range are mapped at consecutive places, which then are a region with their texts |
| PageStore.Store.ChooseBest | src/repopage.c:608-651 | the chosen run of slots lies inside the mapped slots, through the cost search and the round-robin rule |
| PageStore.Store.Evict | src/repopage.c:658-674 | after evicting, the run of slots holds no page but those already in their place, and mapped[] and mapped_at are still inverse to each other |
| PageStore.Store.Bring | src/repopage.c:677-729 | page i ends up in its slot with its own text, whether it was there, is copied or is read in; all other mapped pages keep theirs |
| PageStore.Store.LoadPageRange | src/repopage.c:573-731 | mapped[] and mapped_at stay inverse and every mapped slot holds its page's text, on success and on failure; a returned region holds pages pstart..pend consecutively |
| PageStore.RegionsAgree | src/repopage.c:575-576 | two regions returned at any time for ranges with a common page show the same bytes for it |
| Packing.ExtData.AddId | src/repodata.c:2380-2399 | a number is written as its base-128 digits, most significant first; a negative one only as its low seven bits |
| Packing.ExtData.AddIdEof | src/repodata.c:2402-2407 | an array element is written with the end mark in bit 6 of its last byte |
| Packing.EofCodeIs | src/repodata.c:2402-2407 | an element is written as what is kept of it, with the end mark; it is kept in full exactly below 2^30, above only six bits of it are |
| Packing.IdRoundTrip | src/repopack.h:14-28 | reading a written number gives the number and the place behind it |
| Packing.IdEofRoundTrip | src/repopack.h:31-52 | reading a written element gives the element, the place behind it and the end mark |
| Packing.ReadId | src/repopack.h:14-28 | the reading loop gives the base-128 number at a place and the place behind it |
| Packing.ReadIdEof | src/repopack.h:31-52 | the reading loop gives the element at a place, its end mark and the place behind it |
| Packing.SkipIdArray | src/repopack.h:146-150 | skipping an id array stops where fetching its elements until the last one stops |
| Packing.SkipDirStrArray | src/repopack.h:161-171 | skipping a directory and string array stops where fetching its elements stops |
| Packing.SkipDirNumNumArray | src/repopack.h:172-186 | skipping a directory and numbers array stops where fetching its elements stops |
| Packing.Skip | src/repopack.h:121-190 | for every type that can be fetched, data_skip stops exactly where repeated data_fetch reaches eof, on any terminated bytes |
| PackDeps.SortHalves | ext/repo_write.c:463-472 | the ids before the marker and those after it are sorted separately, in place, through both size cut-offs |
| PackDeps.AddIdArraySort | ext/repo_write.c:427-513 | the bytes written are the difference code of the renumbered list with both halves sorted |
| PackDeps.ReadRelIdArray | src/repo_solv.c:250-291 | the reading loop gives the ids, the place and the error that the difference code says |
| PackDeps.ArrayRoundTrip | src/repo_solv.c:250-291 | reading a written array gives the sorted first half, the marker unless nothing follows it, and the sorted second half, whenever all ids are below 2^30 - 1 |
| PackDeps.ArrayExact | src/repo_solv.c:250-291 | a written array is read back as its sorted halves, up to a marker at the end, exactly if every difference between neighbours in the sorted halves, plus one, is below 2^30 |
| PackDeps.WideAlone | ext/repo_write.c:482-510 | the single id 2^30 - 1 is not read back, though it is below the documented bound; 2^30 - 2 followed by 2^30 + 3 is |
| PackDeps.SkipAgrees | src/repopack.h:146-150 | skipping a relation array stops where reading it stops |
| SatSort.Med3 | src/qsort_r.c:91-96 | the chosen element lies between the other two |
| SatSort.VecSwap | src/qsort_r.c:165-169 | two disjoint blocks are exchanged element by element |
| SatSort.InsertionSort | src/qsort_r.c:108-115 | the insertion sort leaves the range ordered, a permutation, and the rest untouched |
| SatSort.Scan | src/qsort_r.c:129-155 | the two-ended scan leaves elements equal, smaller, greater and equal to the pivot, in this order |
| SatSort.Gather | src/qsort_r.c:165-169 | the equal elements from both ends end up between the smaller and the greater ones |
| SatSort.Sort | src/qsort_r.c:99-179 | for every length and every total preorder, the range becomes an ordered permutation of itself, and the loop and recursion end |
| Lexicographic.LexTrans | src/evr.c:29-133 | lexicographic comparison is transitive, strictly if one step is strict |
| Evr.VerCmpDeb | src/evr.c:29-65 | the Debian comparison is the lexicographic comparison of keys in which runs of digits count by their numeric value and '~' ranks below the end |
| Evr.VerCmpRpm | src/evr.c:79-133 | the rpm comparison is the lexicographic comparison of segment keys: trailing separators, words, then numbers by value |
| Evr.SameLength | src/evr.c:42-53 | numbers of equally many digits compare like their first different digit |
| Evr.LongerIsGreater | src/evr.c:94-107 | without leading zeros, the number with more digits is greater |
| EvrOrder.EvrCmpStr | src/evr.c:143-228 | the result is the order by epoch number (none being 0), then version, then release, a missing release being below any |
| EvrOrder.VersionPreorder | src/evr.c:29-133 | both version comparisons are total preorders on all strings |
| EvrOrder.EvrAnti | src/evr.c:143-228 | exchanging the arguments changes the sign, on all strings |
| EvrOrder.EvrTrans | src/evr.c:143-228 | the comparison is transitive on editions whose release, after a dash, is not empty |
| EvrOrder.TransitiveIffProper | src/evr.c:222-226 | the comparison is transitive through an edition exactly if its release, after a dash, is not empty: an empty one compares equal to every release |
| EvrOrder.DashAlone | src/evr.c:222-226 | "1-" compares equal to "1-1" and to "1-2", and "1-2" is greater than "1-1" |
| HashChain.TriInjective | src/hash.h:28-29 | in a power-of-two table, the first table-size triangular steps fall into different slots |
| HashChain.ProbeCovers | src/hash.h:28-29 | steps of 7, 8, 9, ... reach every slot of a power-of-two table within twice its size |
| HashChain.Mkmask | src/hash.h:80-86 | the mask is one less than a power of two and at least twice num, so that a table of num entries is at most half full |
| PoolId.RelPool.Lookup | src/poolid.c:86-96 | probing ends within twice the table size, at the relation or at a free slot that proves it is not there |
| PoolId.RelPool.Rehash | src/poolid.c:69-84 | the rebuilt table holds exactly the old relations, each where probing finds it |
| PoolId.RelPool.Rel2Id | src/poolid.c:55-117 | an existing triple gives its id; otherwise, with create, a new id is appended; relations stay pairwise different |
| PoolId.HistoryAppends | src/poolid.c:55-117 | over every sequence of calls, relations are only appended and stay pairwise different |
| PoolId.SameIdSameTriple | src/poolid.c:55-117 | over every sequence of calls, two creating calls return the same id exactly if their triples are equal |
| PoolId.CreatedId | src/poolid.c:55-117 | the id a creating call returned still denotes its triple at the end of the sequence |
| Dirpool.ParentEarlier | src/dirpool.h:27-34 | the parent of a directory has a smaller id |
| Dirpool.ChildrenExact | src/dirpool.h:38-62 | child and sibling traversal lists exactly the directories with the given parent, each once |
| Dirpool.Pool.MakeDirtraverse | src/dirpool.c:81-97 | one pass over the blocks gives the link of every directory and block head |
| Dirpool.Pool.Parent | src/dirpool.h:27-34 | the backward scan finds the head of the directory's block and so its parent |
| Dirpool.Pool.NextSibling | src/dirpool.h:38-53 | the next directory with the same parent, in this block or the one before |
| Dirpool.Pool.Child | src/dirpool.h:57-62 | the first child of a directory, building the links on demand |
| Dirpool.AppendLinks | src/dirpool.c:137-156 | the links kept while appending are those a rebuild would give |
| Dirpool.PathOfPrefix | src/dirpool.c:100-157 | appending directories leaves the component path of every directory there was |
| Dirpool.Pool.AddDir | src/dirpool.c:100-157 | the pair (parent, component) maps to one directory; a new one is appended with that parent and keeps the pool a forest without duplicates |
| DirPath.Repodata.Str2Dir | src/repodata.c:250-283 | a path leads to the directory whose path is the path with repeated and trailing slashes removed, made if missing and asked for |
| DirPath.Repodata.Dir2Str | src/repodata.c:286-329 | the text is the directory's path joined with the suffix, filled from the end into a buffer of the length computed before |
| DirPath.Repodata.PathRoundTrip | src/repodata.c:250-329 | from a non-empty path to its directory and back gives the normalised path joined with the suffix |
| DirUse.ClosedAbove | ext/repo_write.c:572-590 | every directory above a used one is marked 2 |
| DirUse.SetDirUsed | ext/repo_write.c:573-590 | the early stop of the marking loop keeps that invariant and marks the directory |
| DirWrite.TableFits | ext/repo_write.c:1593-1595 | the new directory table never needs more than ndirs slots |
| DirWrite.TraverseDirs | ext/repo_write.c:864-898 | the used directories below p are appended, parents before children, one block for each parent |
| DirWrite.PathPreserved | ext/repo_write.c:1585-1614 | every directory of the new table has the component path of the directory it stands for, in new component numbers |
| DirWrite.RenumberDirs | ext/repo_write.c:1597-1613 | the root and the used directories, and no others, get numbers; each has the same path in the new table, in new component numbers, and each number stands for one of them |
| DirWrite.WriteAndRead | src/repo_solv.c:802-818 | the reader's range check passes, and each directory has the same path in the table read, in the reader's component ids |
| DirWrite.RoundTrip | ext/repo_write.c:1585-1614 | renumbering, writing and reading: each directory that went into the file has the path it had, each component under the reader's id for its number |
| DirFile.CountComponents | ext/repo_write.c:1497-1518 | every component is needed once more for each directory that goes into the file and has it |
| DirFile.Intern | src/repo_solv.c:684-733 | each string of the file gets an id of the pool under which that string is found, the empty one always 1, and strings of the pool stay |
| DirFile.WriteAndReadDirectories | ext/repo_write.c:1497-1614 | counting, numbering, writing, interning and reading: each directory that went into the file has the same component texts in the reader's table and pool, from the root on |
| WhatProvides.ProvidersExact | src/pool.c:273-375 | the list of a name is exactly the ascending, duplicate-free set of eligible solvables that provide it |
| WhatProvides.CountNames | src/pool.c:295-316 | the first pass counts the provides of each name, duplicates included |
| WhatProvides.PlaceRegions | src/pool.c:318-328 | the second pass gives each provided name a region with room for all its provides and the end mark, disjoint from the others |
| WhatProvides.FillData | src/pool.c:342-368 | filling from the back leaves, for each name, its providers without duplicates in ascending order |
| ShrinkProvides.SortCmpPreorder | src/pool.c:158-179 | the comparison of lists, then ids, is a total preorder |
| ShrinkProvides.Unify | src/pool.c:199-231 | names with equal lists come to refer to the smallest of them, and only those |
| ShrinkProvides.Compact | src/pool.c:232-252 | moving the lists down keeps all contents, and neither abort() is reached |
| ProvidesIndex.Index.CreateWhatProvides | src/pool.c:273-375 | every name gets exactly the list of its providers, and two names share an offset exactly if their lists are equal |
| ProvidesIndex.Index.ShrinkWhatProvides | src/pool.c:188-263 | no list changes its contents, names share an offset exactly if their lists are equal, and the data never grows |
| ProvidesIndex.Index.QueueToWhatProvides | src/pool.c:405-431 | the new list holds the queue, its offset is not 0, and no list there was is changed |
| MatchFlags.MatchIsOverlap | src/pool.c:492-512 | over a dense order without ends, two ranges match exactly if some version lies in both |
| MatchFlags.MatchSymmetric | src/pool.c:492-512 | which of the two ranges is the provided one does not matter |
| MatchFlags.SelfProvide | src/pool.c:475-487 | the version branch of pool_match_nevr_rel is the test against an '=' provide of the package's own edition |
| RelProviders.Intersect | src/pool.c:575-590 | the AND branch keeps exactly the common elements, and reports reuse only if the list is unchanged |
| RelProviders.Unite | src/pool.c:591-608 | the OR branch gives exactly the union, without repeating an element |
| RelProviders.FilterArch | src/pool.c:646-656 | the ARCH branch keeps exactly the packages of the architecture |
| RelProviders.FilterVersion | src/pool.c:684-740 | a version relation keeps exactly the packages with a provide whose range overlaps; the system provides unknown rpmlib features |
| RelProviders.AddRelProviders | src/pool.c:552-749 | the list is exactly the recursively defined set, its offset is not 0 and is remembered, no list that existed is changed, and the recursion ends |
| RelProviders.Whatprovides | src/pool.h:284-299 | the offset of a dependency leads to exactly its set, whether it was remembered or computed now |
| RelProviders.CreateAndLookup | src/pool.h:284-299 | after building the index and any sequence of lookups, the list at every offset that was returned is exactly the set of its dependency |
| IdArray.AddKeepsGood | src/repo.c:267-340 | adding keeps both halves free of duplicates and of each other, and the marker out of both |
| IdArray.RunIs | src/repo.c:258-265 | after any calls, the second half holds the ids ever added behind the marker in the order of the first such call, and the first half the others in the order of their first call |
| IdArray.OtherKept | src/repo.c:202-207 | a list that shares no slot with the changed one is still there, through in-place changes and copies |
| IdArray.Repo.AddId | src/repo.c:210-255 | the list gets the id appended, in place at the end of the arena and in a copy otherwise |
| IdArray.Repo.AddIdDep | src/repo.c:267-340 | the stored list becomes that of the pair of halves after the addition; the marker is stored once and never last |
| NeedId.IncNeedId | ext/repo_write.c:52-65 | every string and relation is counted as often as it occurs in the expansion of the id |
| NeedId.IncNeedIdArray | ext/repo_write.c:68-91 | the same for all ids of a list; the result is the size of the list with its end |
| NeedId.CountingKeeps | ext/repo_write.c:52-91 | no relation is ever needed more often than its name or its evr |
| NeedSort.Renumber | ext/repo_write.c:1529-1576 | ids are numbered by need, then relations by age and strings by bytes; unneeded ones get 0, and '' gets 1 |
| NeedWrite.Inverse | ext/repo_write.c:1574-1576 | the number of each needed id leads back to it, and the id of each number has that number |
| NeedWrite.DefinitionBeforeUse | ext/repo_write.c:1529-1571 | the name and the evr of a needed relation are needed, and get smaller numbers than the relation |
| NeedWrite.WriteRels | ext/repo_write.c:1806-1812 | entry i is the relation whose number is the i-th, with the numbers of its parts |
| NeedWrite.ReadRels | src/repo_solv.c:768-795 | the reader reports an error exactly if a part's number is not smaller than that of its relation; otherwise the pool ids stand for what the entries say |
| NeedWrite.WrittenInOrder | src/repo_solv.c:768-772 | the reader's range check never rejects a written file |
| NeedWrite.MeaningPreserved | src/repo_solv.c:768-795 | after reading, the number of every needed id stands for the same expression as the id did for the writer |
| PrefixCode.WriteStrings | ext/repo_write.c:1725-1760 | each string is written without the beginning it shares with the one before, and the size in the header is that of the bytes |
| PrefixCode.CodedSize | ext/repo_write.c:1745-1747 | the bytes take the space of the strings plus one for each string, less what is shared |
| PrefixCode.ExpandStrings | src/repo_solv.c:583-616 | expanding what was written gives exactly the strings, with no error and no byte left over |
| Schemata.Pool.Schema2Id | src/repodata.c:174-225 | a schema gets the id it has, or a new one if asked for; no two ids have the same schema, and old ids keep theirs |
| Fields.FetchAllShift | src/repopack.h:62-118 | what is fetched of a field depends only on the bytes of the field |
| Serialize.SerializeKey | src/repodata.c:2422-2561 | the bytes of a pending value are appended, for every type without sub-structures |
| Serialize.SerialComplete | src/repodata.c:2422-2561 | the bytes of a value that has a packed form are one complete field, from which is fetched what the packing keeps of the values: all of an id marked in its array below 2^30, six bits of it above |
| Serialize.SerialExact | src/repodata.c:2422-2561 | for every type, what is fetched is exactly the value that was set if and only if it is a non-negative number, an array that is not empty with all its marked ids below 2^30, or of another type |
| Serialize.EmptyArrayIsNoField | src/repodata.c:2469-2487 | an array set to an empty list is written as nothing, so that no field is there to be skipped: arrays must not be empty |
| Merge.WriteFields | src/repodata.c:2690-2735 | the fields of the merged entry are the old bytes for keys that were not set and the packed values for those that were |
| Merge.MinusOneIsLost | src/repodata.c:2618-2657 | after setting a number to -1 the merged entry has the key, but no byte of a field follows for it |
| Merge.MinusTwoIsIgnored | src/repodata.c:2618-2657 | after setting a number to -2 the merged entry has the key with the field it had before, or with no byte at all if it is new |
| Merge.MergedLookup | src/repodata.c:2618-2735 | the first key of a name in the merged entry is the first old key of the name, or else the pending one |
| Merge.OverlayExact | src/repodata.c:2618-2735 | for a name whose value is not taken for a mark, the merged entry is the pending value over the old one exactly if the first old key of the name is the very key that is pending |
| Merge.OverlayAlways | src/repodata.c:2618-2735 | with one key for each name, and no value that is taken for a mark, it always is |
| Internalize.MergeEntry | src/repodata.c:2604-2738 | one turn of the loop: the packed entry is read, merged and appended, and stays well-formed |
| Internalize.MergeAll | src/repodata.c:2601-2738 | all entries are merged, each with what is pending for it, at places that do not depend on each other |
| AttrStore.Repodata.Key2Id | src/repodata.c:137-163 | keys are the same by name and type, and constants by value |
| AttrStore.Repodata.InsertKeyId | src/repodata.c:1863-1896 | what is pending under the name of the key is replaced, all else stays |
| AttrStore.Repodata.SetStr | src/repodata.c:1980-1994 | the string becomes what is pending under the name, and everything else that is pending stays what it is |
| AttrStore.Repodata.SetChecksum | src/repodata.c:2090-2107 | the same for a checksum, whose length is that of its type |
| AttrStore.Repodata.SetBinary | src/repodata.c:1997-2023 | the same for bytes with their number written in front, in one to five bytes |
| AttrStore.Repodata.SetIdArray | src/repodata.c:2215-2229 | the list, up to its first 0, becomes what is pending under the name, for any ids and any length, and everything else that is pending stays what it is |
| AttrStore.Repodata.Internalize | src/repodata.c:2564-2767 | nothing is pending afterwards, every entry is merged with what was pending for it, and the store is well-formed again |
| AttrStore.InternalizeOverlays | src/repodata.c:2564-2767 | afterwards a name stands for what the packing keeps of the values that were set, and otherwise for what it stood for before, with one key for each name |
| AttrStore.InternalizeExact | src/repodata.c:2564-2767 | a name stands for exactly the values that were set, under its own key, if and only if it was not stored under another key and the values fit |
| AttrStore.Repodata.ForwardToKey | src/repodata.c:380-409 | skipping the fields before a key, or jumping by the recorded offsets of the first entry, leads to its field |
| AttrStore.Repodata.FindKeyData | src/repodata.c:534-560 | a lookup finds a name exactly if the entry has it, and the place of its field |
| AttrStore.FetchedValues | src/repopack.h:62-118 | fetching at the place of a field gives the values of the field |
| SetAttr.PutMeans | src/repodata.c:1863-1896 | setting an attribute changes what is pending for its name and for no other name |
| SetAttr.ValueStays | src/repodata.c:1980-1994 | values in the store stay what they are when the store grows |
| ArrayAdd.FindEnd | src/repodata.c:2068-2069 | the loop stops at the zero that ends the list |
| ArrayAdd.ListExtends | src/repodata.c:2070-2075 | an element written over the end of a list, and a new end behind it, make the list longer by that element |
| ArrayAdd.ListMoves | src/repodata.c:2076-2083 | a list copied behind the store is the same list, and the last one |
| ArrayCache.OwnerGrows | src/repodata.c:2034-2041 | writing over the last id of the store adds the element to the list that ends there, and changes no other pending value |
| AttrStore.Repodata.MoveToBack | src/repodata.c:2076-2083 | a list that is not the last is copied to the end of the store with its values, and nothing else changes |
| AttrStore.Repodata.AddGroup | src/repodata.c:2028-2088 | the element is added behind what is pending under the name, or starts a new array, and every other pending value stays, through the remembered last addition, the search, the append in place and the move; it is lost exactly if the remembered name was set to another type with nothing added since |
| AttrStore.Repodata.NeverLost | src/repodata.c:2034-2042 | with one key for each name, no added element is lost |
| AttrStore.Repodata.AddIdArray | src/repodata.c:2268-2276 | the id becomes the last element of what is pending under the name, unless it is lost |
| AttrStore.Repodata.AddDirNumNum | src/repodata.c:2232-2243 | the same for a directory and two numbers |
| AttrStore.Repodata.AddDirStr | src/repodata.c:2246-2265 | the same for a directory and a string, which is put into attrdata |
| AttrRuns.LoseElement | src/repodata.c:2034-2042 | add an id, set the name to an id, add again: the second element is not there, whatever the arguments are |
| AttrRuns.SetOtherType | src/repodata.c:2618-2657 | for a name stored under a key of another type, setting a string and internalizing leave a lookup as it was |
| AttrRuns.KeepOldType | src/repodata.c:2618-2657 | set an id, internalize, set a string, internalize: a lookup still gives the id, whatever the arguments are |
| AttrRuns.MergeCell | src/repodata.c:2564-2767 | internalizing makes what is pending under a name what a lookup of it finds, and leaves what it found before if nothing is pending |
| AttrRuns.Perform | src/repodata.c:1899-2276 | after any calls of setting, adding and internalizing with one key for each name and values that have a packed form, every name of every entry stands for what its own calls and the merges make of it |
| AttrRuns.Rounds | src/repodata.c:2564-2767 | after any rounds, the stored value is what is kept of the latest one up to the last merge, set as a whole or made by adding since the merge before it; what is pending is the latest value since |
| AttrRuns.Lookup | src/repodata.c:534-560 | a lookup finds a name exactly if it has a stored value, and the values fetched from the place found are that value |
| Reorder.Tables.Swap | ext/repo_rpmdb.c:1215-1236 | the solvable, its database id and its pending attributes change places together |
| Reorder.Resolve | ext/repo_rpmdb.c:1530-1532 | each step of the inner loop goes to a greater index, so it ends, at the place where the wanted solvable is now |
| Reorder.AdaptOrder | ext/repo_rpmdb.c:1527-1535 | afterwards place i holds what was originally at place pkgids[i], with everything that belongs to it |
| Reorder.SortSolvables | ext/repo_rpmdb.c:1521-1537 | the new solvables are a permutation of what they were, by name and then by database id |
| DiskUsage.SubtractFromAncestors | ext/repo_rpmmd.c:311-335 | the values of an entry are taken from exactly its listed ancestors, unlisted ones in between making no difference; the subtraction stops at zero exactly if one of them holds less |
| DiskUsage.EntryDone | ext/repo_rpmmd.c:305-335 | once the entries behind it are done, an entry holds its own values, and every entry above it holds at least as much |
| DiskUsage.CommitDiskUsage | ext/repo_rpmmd.c:299-355 | if the entries are cumulative sums of non-negative values over the listed directories, they become exactly these values, and no subtraction ever stops at zero |
| DiskUsage.AddedAre | ext/repo_rpmmd.c:349-353 | what is added is each listed directory with a non-zero value of its own, with that value |

## Left out

- The solver, rules, problems and policies, and the parsers of the metadata formats: they are not part of this model.
- Files, sockets and databases: a page file is the set of its readable pages, a written file is a sequence of bytes or entries.
- Stores read from a file that cannot be seeked: they are modelled only by what they amount to, all pages being resident.
- The layout of pages in the page file (`file_offset`), and the compression of a store's own pages on writing.
- `LzDecompress.Decompress` requires a well-formed stream and enough room, as the unchecked decompressor does.
- The string pool: strings are interned by a search in a list; its hash table is of the same kind as the one in `PoolId`.
- Growing `whatprovides_rel` and the forgetting of hash tables, which only affect memory.
- `swaptype` of the sort: the elements of an array are values that are exchanged whole.
- `EvrOrder.EvrCmpStr` models the comparing mode without epoch promotion; the matching modes and promotion are not symmetric by intent.
- `EvrOrder.EvrCmpStr` takes two strings, so that the shortcut for identical pointers is not modelled; it would not change the result.
- `RelProviders.AddRelProviders` models the REL_NAMESPACE branch without a callback.
- `ProvidesIndex.Index.CreateWhatProvides` requires that no provide resolves to string 0, whose list shrinking would not move.
- `IdArray.Repo.AddIdDep` requires that an id is not the marker itself, and that a list is always used with the same marker.
- Reserving dependency space in advance (`repo_reserve_ids`), which the arena's last-list offset also supports.
- `PrefixCode.ExpandStrings` reads what was written; how the reader treats a string that claims to share more than its predecessor has is not modelled.
- `NeedWrite.ReadRels` looks relations up in a list; the hash table of the reader is of the same kind as the one in `PoolId`.
- `NeedWrite.MeaningPreserved` takes the reader's strings as given; that they are the written ones is `PrefixCode.ExpandStrings` and `DirFile.Intern`.
- `NeedWrite.ReadRels` stops at the first error; the source goes on with id 0 and returns the error in the end, with more relations in the pool.
- `DirFile.WriteAndReadDirectories`: the writer's own pool of strings (`putinownpool`), into which components are copied first if there is one.
- `Packing.ReadId` and `Packing.ReadIdEof` read numbers of any length; the source's int wraps on bytes that no writer makes.
- `PackDeps.AddIdArraySort`: the local buffer of 64 ids and the allocated one are the same array in the model.
- Attributes stored outside of core (KEY_STORAGE_VERTICAL_OFFSET), sub-structures (FIXARRAY, FLEXARRAY), and the entry of the current position.
- `AttrStore.Repodata.Internalize` requires that pending values have a packed form: no -1, no -2, no empty array. What is written for those is `Merge.MinusOneIsLost`, `Merge.MinusTwoIsIgnored` and `Serialize.EmptyArrayIsNoField`.
- `AttrStore.Repodata.Internalize` requires that schema numbers stay below 2^31.
- `AttrStore.Repodata.AddIdArray` and the other additions require that an element does not start with 0, which would end the list.
- `AttrStore.Repodata.ForwardToKey` looks whether there is a first recorded offset before it reads it; the source reads it in any case, also of a first entry without keys.
- `AttrRuns.Perform` performs calls whose values have a packed form, as `AttrStore.Repodata.Internalize` requires.
- Extending the range of solvables, and deleting pending attributes.
- `Schemata.Pool.Schema2Id` compares up to the first difference, where the source may look at memory behind the schema data.
- `DiskUsage.CommitDiskUsage` returns what the source passes on to the attribute store.
- `Reorder.SortSolvables` counts places from the first new solvable instead of from the start of the pool.
