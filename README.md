# roo library core in Dafny

This project models the library code of roo, a C++ server toolkit:

- the two LRU caches, `LruCache` and `LruCacheMem`;
- the locked pair vector `PairVec`;
- the pure path helpers of `FilesystemUtil`;
- the string helpers of `StrUtil`;
- the byte-order helpers of `Endian`;
- the fixed-buffer `ConstructException`;
- the runtime-update callbacks of `Setting`;
- the level and severity tables of the logging front end.

The verifier proves each operation against a specification.

## Modules

- `LruList` holds the intrusive doubly-linked recency list that both caches share.
  - The `prev_` / `next_` pointers are two maps from a `Link` (`Head`, `Tail` or the node of a key) to a `Link`.
  - A ghost sequence `order` lists the keys from `head_` to `tail_`, most recently used first.
  - `Linked` ties the maps to that sequence.
  - `delink`, `link_push_front` and the deleting loop of `clear` rewire the maps statement by statement.
- `LruCacheModel` is the count-bounded cache: a hash map plus the list.
  - `evict` loops while the size is at least `max_count`. So a cache of `max_count` N keeps at most max(1, N - 1) entries, and never drops its last entry.
  - The invariant `Valid` says exactly this.
- `LruCacheMemModel` is the same cache with a `size_t` memory estimate.
  - All updates of `mem_used_` are taken modulo 2^64.
  - Insertion adds `calc_item_size`. Eviction subtracts `calc_item_size + kSizeAdditional`, so every eviction leaves the counter `kSizeAdditional` too low.
  - A ghost count of evictions states the drift in the invariant `Accounted`.
  - `WrapAround` shows the counter wrapping to 2^64 - 20 after three `int32` inserts into a two-entry cache.
- `PairVecModel` is the vector of pairs with linear search and its JSON-like `SERIALIZE`.
  - The constructor from a container leaves the mutex pointer null. Every locked operation therefore requires `hasLock`.
- `StrUtil` covers `trim_whitespace`, `trim_lowcase`, `pure_uri_path` and `drop_host_port`. Character classes are those of the "C" locale.
- `FilesystemUtil` covers `normalize_path`, `filename`, `directory`, `is_directory` and `parent_directory`.
  - `is_directory` tests a zero-initialised `stat` record that is never filled, so it is false for every path.
- `Endian` covers the big-endian encoders and decoders for 64-, 32- and 16-bit integers. Decoding reads through `c_str()`, so the NUL terminator can be the last byte read.
- `ConstructExceptionModel` is the 1024-byte message buffer. `strcpy` / `strncpy` are loops over an `array<char>`, and the copy constructor copies the buffer.
- `SettingModel` is the `Setting` object.
  - The libconfig loader and the clock are parameters.
  - Callbacks are functions from the configuration to `int`, and their results are summed.
  - `module_status` lists the callbacks by number.
- `LogModel` holds the syslog-level to glog-severity tables of `log_init`, `log_api` and `log_api_if`, and the truncation to the message buffer.

## Model

| member | source | states |
|---|---|---|
| LruList.DelinkKeepsLinked | container/LruCache.h:202-208 | unlinking the node at position j leaves maps that describe the list without that key |
| LruList.PushFrontKeepsLinked | container/LruCache.h:211-218 | linking a new key's node behind head_ describes the list with that key in front |
| LruList.ResetLinked | container/LruCache.h:174-176 | pointing head_ at tail_ and back describes the empty list |
| LruList.DeleteNodes | container/LruCache.h:166-172 | the loop from head_ to tail_ deletes the node of every listed key |
| LruList.LastBeforeTail | container/LruCache.h:228 | the node before tail_ holds the least recently used key, or is head_ when the list is empty |
| LruList.EraseLru | container/LruCache.h:231-232 | unlinking and erasing the last key drops exactly that key from the list and the map |
| LruCacheModel.LruCache.constructor | container/LruCache.h:81-90 | a new cache is empty, its list is head_ to tail_, and it keeps both limits |
| LruCacheModel.LruCache.Find | container/LruCache.h:103-114 | found iff the key is present; the value is returned and the key moves to the front; the map never changes; a miss changes nothing |
| LruCacheModel.LruCache.Contains | container/LruCache.h:117-120 | true iff the key is cached, without touching the list |
| LruCacheModel.LruCache.Insert | container/LruCache.h:124-143 | inserts iff the key is absent, then puts it in front and evicts from the back only, down to exactly `Kept` of the grown size; below max_count nothing is evicted; a present key leaves everything unchanged |
| LruCacheModel.LruCache.InsertOrUpdate | container/LruCache.h:145-160 | always succeeds; a new key is inserted and evicts down to exactly `Kept` of the grown size, nothing below max_count; a present key gets the new value and moves to the front, the rest keeps its order |
| LruCacheModel.LruCache.Clear | container/LruCache.h:163-177 | empties the map and the list and keeps the invariant |
| LruCacheModel.LruCache.SnapshotKeys | container/LruCache.h:180-186 | appends the keys from most to least recently used to the given vector |
| LruCacheModel.LruCache.ItemCount | container/LruCache.h:189-191 | the number of cached entries |
| LruCacheModel.LruCache.Delink | container/LruCache.h:202-208 | removes exactly that key from the list; the map is unchanged |
| LruCacheModel.LruCache.LinkPushFront | container/LruCache.h:211-218 | the list becomes the key followed by the old list |
| LruCacheModel.LruCache.Kept | container/LruCache.h:221-235 | the entry count evict stops at: all of them when there are fewer than max_count or at most one, else max(1, max_count - 1) |
| LruCacheModel.LruCache.Evict | container/LruCache.h:221-235 | drops keys only from the back, never the last one, leaves exactly `Kept` of the old count, and keeps the values of the survivors |
| LruCacheModel.LruCache.DropLru | container/LruCache.h:228-233 | one eviction step removes the least recently used key from both the list and the map |
| LruCacheModel.SmokeTest | test/LruCacheTest.cpp:11-29 | on a cache of (10, 1000): two inserts succeed, a repeated key is refused, find returns value2, the count is 2, key1 is found and key3 is not, and insert_or_update then find returns value3 |
| LruCacheMemModel.SizeOfStringAppend | container/LruCacheMem.h:42-48 | the size of a string (SizeOf<std::string>) is sizeof(std::string) plus its length and grows by one per character |
| LruCacheMemModel.WrapSub | container/LruCacheMem.h:232 | size_t subtraction wraps modulo 2^64 whichever operand is reduced first |
| LruCacheMemModel.WrapAdd | container/LruCacheMem.h:126 | size_t addition wraps modulo 2^64 whichever operand is reduced first |
| LruCacheMemModel.LruCacheMem.constructor | container/LruCacheMem.h:66-76 | a new cache is empty with mem_used_ 0 |
| LruCacheMemModel.LruCacheMem.Find | container/LruCacheMem.h:89-100 | as LruCache.Find, and mem_used_ does not change |
| LruCacheMemModel.LruCacheMem.Contains | container/LruCacheMem.h:104-106 | true iff the key is cached |
| LruCacheMemModel.LruCacheMem.Insert | container/LruCacheMem.h:110-130 | inserts iff the key is absent; the result is exactly what the forced evictions make of the pushed state (`EvictedTo`); when that state is within the limits, order, map and mem_used_ are exactly the pushed ones; the number of evictions equals the entries that went |
| LruCacheMemModel.LruCacheMem.PushNew | container/LruCacheMem.h:112-126 | a new key enters the map and the front of the list, and calc_item_size is added to mem_used_ |
| LruCacheMemModel.LruCacheMem.InsertOrUpdate | container/LruCacheMem.h:132-149 | a present key gets the new value and moves to the front; mem_used_ changes by the new value size minus the old one, modulo 2^64; for a new or a present key the result is exactly the forced evictions of the pushed state (`EvictedTo`), and an update within the limits keeps every entry |
| LruCacheMemModel.LruCacheMem.Refresh | container/LruCacheMem.h:139-145 | the update path, stated exactly: new value, key in front, mem_used_ adjusted by the value sizes |
| LruCacheMemModel.LruCacheMem.Clear | container/LruCacheMem.h:152-167 | empties the cache and resets mem_used_ to 0 |
| LruCacheMemModel.LruCacheMem.SnapshotKeys | container/LruCacheMem.h:171-179 | appends the keys from most to least recently used |
| LruCacheMemModel.LruCacheMem.TotalCount | container/LruCacheMem.h:181-183 | the number of entries |
| LruCacheMemModel.LruCacheMem.TotalMemUsed | container/LruCacheMem.h:185-187 | below 2^64, and before any eviction it is the sum of calc_item_size over the live entries |
| LruCacheMemModel.LruCacheMem.EntrySize | container/LruCacheMem.h:191-195 | a cached entry counts its key twice, its value once, and kSizeAdditional |
| LruCacheMemModel.LruCacheMem.Delink | container/LruCacheMem.h:198-204 | removes exactly that key from the list; map and counter unchanged |
| LruCacheMemModel.LruCacheMem.MoveToFront | container/LruCacheMem.h:97-98 | delink followed by link_push_front moves the key to the front and keeps the others in order |
| LruCacheMemModel.LruCacheMem.LinkPushFront | container/LruCacheMem.h:207-214 | the list becomes the key followed by the old list |
| LruCacheMemModel.LruCacheMem.Evict | container/LruCacheMem.h:217-237 | drops keys only from the back, never the last; every drop was forced by a limit and the loop stops at the first state within both limits (`EvictedTo`); a cache already within them is unchanged |
| LruCacheMemModel.LruCacheMem.EvictedToUnique | container/LruCacheMem.h:217-237 | the state evict stops at is determined by the state it starts from |
| LruCacheMemModel.LruCacheMem.EvictedToWithin | container/LruCacheMem.h:219-220 | a state already within both limits is its own eviction result: nothing is dropped and mem_used_ is unchanged |
| LruCacheMemModel.LruCacheMem.EvictStep | container/LruCacheMem.h:225-235 | one forced drop of the back key, with its charge, extends the run of forced drops by one |
| LruCacheMemModel.LruCacheMem.DropForced | container/LruCacheMem.h:225-235 | a drop made while a limit is exceeded removes the back key and extends the run of forced drops |
| LruCacheMemModel.LruCacheMem.DropLru | container/LruCacheMem.h:225-235 | one eviction subtracts calc_item_size + kSizeAdditional from mem_used_, modulo 2^64 |
| LruCacheMemModel.LruCacheMem.AccountInsert | container/LruCacheMem.h:126 | adding calc_item_size keeps mem_used_ equal to footprint minus the drift |
| LruCacheMemModel.LruCacheMem.AccountMove | container/LruCacheMem.h:97-98 | moving a key to the front does not change the footprint |
| LruCacheMemModel.LruCacheMem.AccountUpdate | container/LruCacheMem.h:140-145 | the value-size adjustment keeps mem_used_ equal to footprint minus the drift |
| LruCacheMemModel.LruCacheMem.AccountErase | container/LruCacheMem.h:232-234 | each eviction adds kSizeAdditional to the drift |
| LruCacheMemModel.WrapAround | container/LruCacheMem.h:232 | three int32 inserts into a two-entry cache leave 44 live bytes but mem_used_ at 2^64 - 20 |
| LruCacheMemModel.TwoEntries | test/LruCacheTest.cpp:13-16 | two string inserts into a (10, 1000) cache succeed and leave key2 before key1 with mem_used_ 284 |
| LruCacheMemModel.SmokeSizes | container/LruCacheMem.h:42-48 | with SizeOf<std::string>, each test entry costs 142 bytes and each test value 38 |
| LruCacheMemModel.SmokeTest | test/LruCacheTest.cpp:11-29 | the cache test run on LruCacheMem: inserts, refused repeat, count 2, update then find returns value3, and mem_used_ stays 2 * 142 |
| LruCacheMemModel.InsertPastCapacity | container/LruCacheMem.h:217-237 | a new key into a full two-entry cache evicts the old entry and leaves only the new one |
| PairVecModel.FirstMatchAppend | container/PairVec.h:65-73 | after push_back the first match is unchanged, or the new entry if the key had none |
| PairVecModel.SerializedPush | container/PairVec.h:139-154 | an empty vector serialises to {} and each push_back appends ,"k":"v" (no comma after {) |
| PairVecModel.SerializedSingle | container/PairVec.h:139-154 | one entry serialises to {"k":"v"} |
| PairVecModel.PairVec.constructor | container/PairVec.h:32-35 | a new vector is empty and owns a mutex |
| PairVecModel.PairVec.FromContainer | container/PairVec.h:38-42 | copies the entries in order and has no mutex |
| PairVecModel.PairVec.PushBack | container/PairVec.h:65-68 | appends (k, v) |
| PairVecModel.PairVec.PushBackEntry | container/PairVec.h:70-73 | appends the entry |
| PairVecModel.PairVec.Exist | container/PairVec.h:75-83 | true iff some entry has the key |
| PairVecModel.PairVec.Find | container/PairVec.h:85-94 | found iff the key occurs; returns the value of its first occurrence; otherwise v is unchanged |
| PairVecModel.PairVec.FindEntry | container/PairVec.h:96-105 | found iff the key occurs; returns its first entry; otherwise the entry is unchanged |
| PairVecModel.PairVec.Value | container/PairVec.h:107-117 | the value of the first entry with the key, else the default value |
| PairVecModel.PairVec.Size | container/PairVec.h:119-122 | the number of entries |
| PairVecModel.PairVec.Empty | container/PairVec.h:124-127 | true iff there are no entries |
| PairVecModel.PairVec.Clear | container/PairVec.h:129-132 | removes every entry |
| PairVecModel.PairVec.Serialize | container/PairVec.h:139-154 | the loop builds the serialisation of all entries, enclosed in braces |
| StrUtil.LowerChar | string/StrUtil.h:63-65 | tolower leaves no upper-case letter, keeps whitespace whitespace and changes nothing else |
| StrUtil.TrimInfix | string/StrUtil.h:28-44 | the trimmed string is the run of the input between a whitespace prefix and a whitespace suffix |
| StrUtil.TrimIdempotent | string/StrUtil.h:28-44 | trimming a trimmed string changes nothing |
| StrUtil.TrimWhitespace | string/StrUtil.h:28-44 | the two loops leave the trimmed string and return how many characters went |
| StrUtil.EraseLeadingSpace | string/StrUtil.h:33-36 | the first loop strips exactly the leading whitespace |
| StrUtil.EraseTrailingSpace | string/StrUtil.h:38-41 | the second loop strips exactly the trailing whitespace |
| StrUtil.LowerTrimLeft | string/StrUtil.h:63-65 | lower-casing commutes with trimming the left end |
| StrUtil.LowerTrimRight | string/StrUtil.h:63-65 | lower-casing commutes with trimming the right end |
| StrUtil.TrimLowcase | string/StrUtil.h:63-65 | the lower-cased trim, with no upper-case letter and no whitespace at either end |
| StrUtil.StripOnlySlashes | string/StrUtil.h:55-61 | the loop drops only '/' characters |
| StrUtil.PureUriPath | string/StrUtil.h:55-61 | the lower-cased trimmed path with trailing '/' dropped, ending in no '/' unless it is "/" |
| StrUtil.DropHostPort | string/StrUtil.h:68-75 | the lower-cased trimmed host up to its first ':', or all of it without a ':' |
| FilesystemUtil.SqueezeNoDoubleSlash | other/FilesystemUtil.h:204-210 | the copy loop leaves no two '/' next to each other |
| FilesystemUtil.SqueezePlain | other/FilesystemUtil.h:204-210 | a path without double '/' is copied unchanged |
| FilesystemUtil.NormalizeShape | other/FilesystemUtil.h:188-217 | no double '/', no trailing '/', no leading whitespace, and never longer than the input |
| FilesystemUtil.NormalizePath | other/FilesystemUtil.h:188-217 | the trimming loops, the copy loop and the trailing-'/' erase compute the normalised path |
| FilesystemUtil.NormalizeNotIdempotent | other/FilesystemUtil.h:193-214 | "a /" normalises to "a ", which normalises again to "a" |
| FilesystemUtil.LastIndexOf | other/FilesystemUtil.h:38 | find_last_of: the last position of the character, or none |
| FilesystemUtil.IsDirectory | other/FilesystemUtil.h:58-71 | false for every path |
| FilesystemUtil.Filename | other/FilesystemUtil.h:32-43 | the '/'-free tail of the normalised path after its last '/' |
| FilesystemUtil.Directory | other/FilesystemUtil.h:45-56 | "." without a '/'; otherwise the head that, with "/" and the file name, rebuilds the normalised path |
| FilesystemUtil.NormalizeRun | test/FilesystemUtilTest.cpp:13-21 | padding whitespace and a run of '/' between directory and file normalise away |
| FilesystemUtil.ProfileSplit | test/FilesystemUtilTest.cpp:13-21 | the test path splits into "/etc/profile.d" and "lang.sh" |
| FilesystemUtil.ParentDirectoryAsWritten | other/FilesystemUtil.h:74-84 | as written, one character shorter than the parent directory |
| FilesystemUtil.ParentDirectoryDropsChar | other/FilesystemUtil.h:83 | on the test path the written version returns "/etc/profile." |
| FilesystemUtil.ParentDirectory | other/FilesystemUtil.h:74-84 | with substr(0, pos): the directory, which with "/" and the file name rebuilds the path; none when the assert fires |
| Endian.FromToNet | string/Endian.h:21-58 | decoding big-endian bytes undoes encoding |
| Endian.ToFromNet | string/Endian.h:21-58 | encoding a decoded number gives the bytes back |
| Endian.ToNetDigit | string/Endian.h:23 | byte i is base-256 digit width-1-i, most significant first (htobe) |
| Endian.CStrValue | string/Endian.h:30 | reading through c_str() one byte past a short string reads the NUL as the low byte |
| Endian.Uint64ToNet | string/Endian.h:21-26 | eight bytes that spell num big-endian |
| Endian.Uint64FromNet | string/Endian.h:28-32 | the first eight bytes read big-endian (the NUL last for a 7-byte string) |
| Endian.Uint64RoundTrip | string/Endian.h:21-32 | uint64_from_net(uint64_to_net(n)) == n |
| Endian.Uint64NetRoundTrip | string/Endian.h:21-32 | re-encoding a decoded string gives its first eight bytes |
| Endian.Uint32ToNetAsWritten | string/Endian.h:34-39 | as written: eight bytes, the four of num then four from beyond the buffer |
| Endian.Uint32ToNetOverRead | string/Endian.h:38 | the written result depends on memory beyond buf |
| Endian.Uint32ToNet | string/Endian.h:34-39 | four bytes that spell num big-endian |
| Endian.Uint32FromNet | string/Endian.h:41-45 | the first four bytes read big-endian |
| Endian.Uint32RoundTrip | string/Endian.h:34-45 | decoding undoes both the intended and the written encoder |
| Endian.Uint32NetRoundTrip | string/Endian.h:34-45 | re-encoding a decoded string gives its first four bytes |
| Endian.Uint16ToNetAsWritten | string/Endian.h:47-52 | as written: eight bytes, the two of num then six from beyond the buffer |
| Endian.Uint16ToNetOverRead | string/Endian.h:51 | the written result depends on memory beyond buf |
| Endian.Uint16ToNet | string/Endian.h:47-52 | two bytes that spell num big-endian |
| Endian.Uint16FromNet | string/Endian.h:54-58 | the first two bytes read big-endian |
| Endian.Uint16RoundTrip | string/Endian.h:47-58 | decoding undoes both the intended and the written encoder |
| Endian.Uint16NetRoundTrip | string/Endian.h:47-58 | re-encoding a decoded string gives its first two bytes |
| ConstructExceptionModel.CString | system/ConstructException.h:37-39 | the C string in a buffer: the prefix up to the first NUL |
| ConstructExceptionModel.LayoutWhat | system/ConstructException.h:22-28 | the filled buffer reads as the prefix followed by at most 1003 characters of the message |
| ConstructExceptionModel.ExpectedWhatShape | system/ConstructException.h:22-28 | what() starts with "ConstructException: ", is shorter than 1024, is the bare prefix for a null message, and holds the message cut to 1003 characters |
| ConstructExceptionModel.StrNCopy | system/ConstructException.h:26-27 | strncpy writes the source up to its NUL and pads with NUL to n, touching nothing else |
| ConstructExceptionModel.CopyPrefix | system/ConstructException.h:23-24 | memset then strcpy leave the prefix followed by NULs |
| ConstructExceptionModel.FillMessage | system/ConstructException.h:22-28 | the constructor body leaves the buffer layout of the message |
| ConstructExceptionModel.ConstructException.constructor | system/ConstructException.h:22-28 | the buffer holds that layout, and what() is the prefixed, truncated message |
| ConstructExceptionModel.ConstructException.Copy | system/ConstructException.h:30-32 | the copy has the same buffer and the same what() |
| ConstructExceptionModel.ConstructException.What | system/ConstructException.h:37-39 | a NUL-terminated string inside the buffer, shorter than 1024 |
| SettingModel.SumCallbacksAppend | scaffold/Setting.cpp:73-76 | the callback total over two lists is the sum of their totals |
| SettingModel.AttachThenUpdate | scaffold/Setting.cpp:84-96 | attaching a callback adds its result to the next update's total |
| SettingModel.DecimalRoundTrip | scaffold/Setting.cpp:109 | the callback number is printed as decimal digits that read back as the number |
| SettingModel.StatusLinesAppend | scaffold/Setting.cpp:107-110 | each attached callback adds the line "\t<i>. <name>\n" |
| SettingModel.StatusLinesMention | scaffold/Setting.cpp:107-110 | the status text contains, in order, the numbered line of every callback |
| SettingModel.Setting.constructor | scaffold/Setting.h:33-40 | no file, no configuration, time 0, not in process, no callbacks |
| SettingModel.Setting.Init | scaffold/Setting.cpp:17-46 | records the file; succeeds iff the configuration loads, and keeps it |
| SettingModel.Setting.UpdateRuntimeSetting | scaffold/Setting.cpp:48-82 | -1 without a file; 0 while in process or when loading fails, keeping the old configuration; otherwise swaps in the new configuration, stamps the time and returns the sum of all callbacks |
| SettingModel.Setting.AttachRuntimeCallback | scaffold/Setting.cpp:84-96 | -1 and no change for an empty name or missing function; otherwise appends the callback and returns 0 |
| SettingModel.Setting.ModuleStatus | scaffold/Setting.cpp:99-114 | "roo", "Setting", and the header followed by one numbered line per callback |
| LogModel.MinLogLevel | other/Log.cpp:25-35 | a glog level 0..3; below LOG_CRIT it is 0 |
| LogModel.SeverityFor | other/Log.cpp:78-87 | no severity iff the priority is past LOG_DEBUG; FATAL iff the priority is LOG_CRIT or more urgent |
| LogModel.PassesIffUrgent | other/Log.cpp:25-35 | after log_init(L) with L >= LOG_CRIT, a priority is logged iff it is as urgent as L, or shares L's glog severity |
| LogModel.Formatted | other/Log.cpp:58-62 | the text cut to at most 16381 characters, unchanged when shorter |
| LogModel.LogApi | other/Log.cpp:56-88 | a record at the severity of the priority with the truncated text; nothing past LOG_DEBUG |
| LogModel.LogApiIf | other/Log.cpp:90-122 | the same record when the condition holds, nothing otherwise |
| LogModel.GlogFlags.LogInit | other/Log.cpp:22-49 | sets minloglevel from the table, log_dir only when given, the facility, and the program name (or "./log"); returns true |
| LogModel.RawTestExample | test/LogTest.cpp:13-24 | log_debug after log_init(LOG_DEBUG) yields an INFO record that the flags emit (`emitted`); a false log_info_if logs nothing |

## Left out

- Mutexes and concurrency are not modelled: the lock of PairVec, of Setting and of the caches' callers. Every operation is one atomic step.
- The PairVec iterator accessors BEGIN/END/CBEGIN/CEND and LOCK are not modelled. They hand out references into the vector or the mutex.
- Hashing and the bucket order of `unordered_map` are not modelled. A map is a Dafny `map`, and a list node is named by its key instead of a pointer. So the model does not capture node aliasing, allocation or `delete`.
- The `max_memory` argument of LruCache is stored and never read. The model keeps it as a field only.
- Sizes of C++ types are LP64 / libstdc++ constants. sizeof(std::string) is 32, and kSizeAdditional is 32.
- LruCacheMemModel.LruCacheMem.Insert: after evictions, mem_used_ is stated through the charges of `EvictedTo` and the invariant `Accounted`, not as a closed formula.
- LruCacheMemModel.LruCacheMem.TotalMemUsed: the value is stated as a plain sum only before the first eviction. After that it is stated through `Accounted`.
- FilesystemUtil: exists, create, remove, rename, readlink and the other functions that call the file system are not modelled. They are I/O.
- FilesystemUtil.IsDirectory: stat is never called, so the model is the constant false that the code computes. A filled stat record is not modelled.
- FilesystemUtil.ParentDirectory: the assert on `pos` is modelled as an error result (None). The behaviour of a build with assertions disabled is not modelled.
- StrUtil: tolower and isspace are the "C" locale on ASCII. Other locales and negative char values are not modelled.
- StrUtil.PureUriPath: requires a non-empty trimmed path. The loop reads the last character before it checks the length.
- Endian: decoding reads 8, 4 or 2 bytes through `c_str()`. A string shorter than one byte less than the width would be read past its terminator; this is a precondition.
- Endian.Uint32ToNetAsWritten and Endian.Uint16ToNetAsWritten: the bytes read beyond the buffer are a parameter. Their actual stack contents are not modelled.
- Endian: the htobe/betoh calls are modelled as big-endian digit extraction. Host byte order and memcpy are not modelled.
- SettingModel.Setting.UpdateRuntimeSetting: the configuration loader and `::time` are parameters.
- SettingModel.Setting.UpdateRuntimeSetting: the in-process flag is never set to true anywhere, so the "already in process" branch is unreachable from construction. It is modelled anyway.
- SettingModel.Setting.UpdateRuntimeSetting: the sum of the callback results is unbounded. The wrap-around of the C++ `int` is not modelled.
- Setting: get_setting, the libconfig lookups and the logging calls are not modelled. libconfig is external.
- ConstructExceptionModel and LogModel: a Dafny `char` stands for one C byte, so the 1003-byte strncpy limit and the 16382-byte vsnprintf limit count bytes only for single-byte characters.
- Log: vsnprintf formatting is a parameter, the formatted text. What the glog sink does with a record is not modelled: the files, syslog, and the abort after FATAL.
- Log: log_close does nothing in the source, so it is not modelled.
- LogModel.GlogFlags.LogInit: InitGoogleLogging is modelled as recording the program name. Calling it twice, which glog rejects, is not modelled.
- Thread, timer and network classes are not part of this model.

## Findings

| source | as written | input that shows it | evidently intended | confidence | as-written member | corrected member |
|---|---|---|---|---|---|---|
| other/FilesystemUtil.h:83 | `n_path.substr(0, pos - 1)` drops the character before the last '/' as well | `" /etc/profile.d///lang.sh  "` gives `"/etc/profile."` | `substr(0, pos)`, giving `"/etc/profile.d"` | high, not executed | FilesystemUtil.ParentDirectoryDropsChar | FilesystemUtil.ParentDirectory |
| string/Endian.h:38 | `std::string(buf, 8)` on a 4-byte `buf` returns 8 bytes, 4 of them from beyond `buf` | `uint32_to_net(1)` with different stack contents gives different strings | `std::string(buf, 4)` | high, not executed | Endian.Uint32ToNetOverRead | Endian.Uint32ToNet |
| string/Endian.h:51 | `std::string(buf, 8)` on a 2-byte `buf` returns 8 bytes, 6 of them from beyond `buf` | `uint16_to_net(1)` with different stack contents gives different strings | `std::string(buf, 2)` | high, not executed | Endian.Uint16ToNetOverRead | Endian.Uint16ToNet |
