# VoidAssault core, modelled in Dafny

VoidAssault is a top-down multiplayer shooter written in C++ on raylib and ENet.
This project models the parts of it whose behaviour is decided by its own code
rather than by a library:

- **Serial stream** (`stream_buffer.dfy`): the `StreamBuffer` byte stream.
  Writes always append at the end in big-endian order. Reads move only the read
  cursor and yield a default value when the bytes they need are missing.
  Vectors are written as a uint32 count followed by their elements. The model
  proves the round trips (a value, a sequence of values, a vector) and what a
  truncated read produces.
- **On-screen keyboard** (`in_game_keyboard.dfy`): the mobile `InGameKeyboard`
  editing a NUL-terminated `char` buffer in place. It covers insertion and
  deletion at the cursor with their `memmove`s, cursor keys, the shift and
  symbols modes, and the key rows.
- **Snapshot history** (`snapshot_manager.dfy`): the client's `SnapshotManager`.
  An accepted snapshot is strictly newer than the last one. Old entries are
  dropped from the front down to a one-second window. The model also covers the
  lower-bound bracket search of `GetInterpolatedState` and
  `FindEntityInSnapshot`.
- **Lobby registry** (`master_registry.dfy`): the stand-alone master server in
  `main_master.cpp`. It covers id-keyed lobbies with a wrapping uint32 id
  counter, register, heartbeat, disconnect, the ascending-id lobby listing and
  the 30-second sweep.
- **Master server class** (`master_server.dfy`): `MasterServerLogic.h`, whose
  lobbies are keyed by `"ip:port"`. It covers register, heartbeat, the packed
  list response with its `strncpy`-truncated text fields, and the 15-second
  sweep. The list entries copy the ip as line 114 of `MasterServerLogic.h`
  does, with no terminator for a host text of 16 characters or more; the
  15-byte copy that keeps the terminator is stated beside it as the
  evidently intended fix (see "## Findings").
- **Configuration** (`config_manager.dfy`): `ConfigManager` loading
  `config.json` field by field with defaults. It covers the favourites list,
  falling back to the default configuration when nlohmann's `value()` throws,
  the language string table, `Text`, `GetCurrentLangName` and
  `CycleLanguage`.
- **Gameplay scene** (`gameplay_scene.dfy`): the client's build buttons (costs
  and the five-turret cap), the mouse handling that places buildings or asks for
  upgrades, the inventory guard on STATS packets, INIT handling and the
  kills-ordered leaderboard.
- **File merger** (`tree_merger.dfy`): `merge_files` in `reader.py`. Each file
  of a directory walk that passes the optional extension filter is written as a
  path comment followed by its contents.

Shared modules: `int_types.dfy` (fixed-width integer types), `wrappers.dfy`
(`Option`), `cstrings.dfy` (`strlen` over NUL-terminated text), `decimal_text.dfy`
(`std::to_string` on a non-negative integer) and `ordering.dfy` (strict total
orders and the ascending enumeration of a set's keys, which is how `std::map`
iterates).

Decoding by bitsery, ENet and the file system are not modelled. Their results
are inputs: a decoded packet arrives as `Some(record)` or `None`, as does a
parsed JSON document, an ENet event list or a directory walk.
`GetTime()` is a `now` parameter.

Points where the headers and the code disagree, or where only the code
decides. In each the model follows the code:

- `reader.py` writes the Russian message `[Ошибка при чтении файла: …]` for an
  unreadable file, not an English one.
- `ConfigManager.h` still declares members that the `.cpp` no longer uses. The
  model follows `ConfigManager.cpp`. The compile-time `MASTER_IP` is a
  constructor parameter.
- `NetworkPackets.h` lists only PLAYER, BULLET and ENEMY entity types, but
  GameplayScene.cpp also counts TURRET entities. The model gives entities a
  kind of `Player`, `Turret` or other. The build types are taken to be WALL 1,
  TURRET 2 and MINE 3, matching the button order `type = i + 1`.
  UPGRADE_BUILDING is its own action constructor, since its numeric value is
  not known.

## Model

| member | source | states |
|---|---|---|
| StreamBuffer.Stream.constructor | VoidAssault/src/common/serial/StreamBuffer.cpp:17-22 | a new stream is empty with both cursors 0; the capacity argument (default 1024) only reserves |
| StreamBuffer.Stream.FromBytes | VoidAssault/src/common/serial/StreamBuffer.cpp:24-30 | the stream holds a copy of the given bytes, cursors at 0 |
| StreamBuffer.Stream.SeekG | VoidAssault/src/common/serial/StreamBuffer.cpp:37-40 | only the read cursor is set |
| StreamBuffer.Stream.SeekP | VoidAssault/src/common/serial/StreamBuffer.cpp:42-45 | only the write cursor is set |
| StreamBuffer.Stream.WriteBool | VoidAssault/src/common/serial/StreamBuffer.cpp:69-73 | appends 1 or 0 at the end, whatever the write cursor says, and advances it by 1 |
| StreamBuffer.Stream.WriteU8 | VoidAssault/src/common/serial/StreamBuffer.cpp:75-79 | appends the byte, write cursor + 1 |
| StreamBuffer.Stream.WriteU16 | VoidAssault/src/common/serial/StreamBuffer.cpp:81-88 | appends exactly the 2 big-endian bytes, write cursor + 2, earlier bytes unchanged |
| StreamBuffer.Stream.WriteU32 | VoidAssault/src/common/serial/StreamBuffer.cpp:90-99 | appends exactly the 4 big-endian bytes, write cursor + 4 |
| StreamBuffer.Stream.WriteU64 | VoidAssault/src/common/serial/StreamBuffer.cpp:101-114 | appends exactly the 8 big-endian bytes, write cursor + 8 |
| StreamBuffer.Stream.WriteTime | VoidAssault/src/common/serial/StreamBuffer.cpp:136-139 | a time_t is written as its uint64_t cast: 8 bytes of the two's-complement value |
| StreamBuffer.Stream.WriteString | VoidAssault/src/common/serial/StreamBuffer.cpp:126-134 | the uint32 length then the bytes one by one; cursor advances 4 + length |
| StreamBuffer.Stream.WriteColor | VoidAssault/src/common/serial/StreamBuffer.cpp:164-170 | appends r, g, b, a in that order |
| StreamBuffer.Stream.ReadBool | VoidAssault/src/common/serial/StreamBuffer.cpp:174-178 | the next byte as a bool, or false without moving at eof; buffer unchanged |
| StreamBuffer.Stream.ReadU8 | VoidAssault/src/common/serial/StreamBuffer.cpp:180-184 | next byte, or 0 without moving at eof |
| StreamBuffer.Stream.ReadI8 | VoidAssault/src/common/serial/StreamBuffer.cpp:186-190 | next byte as int8, or 0 without moving at eof |
| StreamBuffer.Stream.ReadU16 | VoidAssault/src/common/serial/StreamBuffer.cpp:192-197 | big-endian value of the next 2 bytes and cursor + 2, or 0 and no move when fewer remain |
| StreamBuffer.Stream.ReadI16 | VoidAssault/src/common/serial/StreamBuffer.cpp:199-209 | the uint16 read mapped to u or u - 2^16 above 0x7fff |
| StreamBuffer.Stream.ReadU32 | VoidAssault/src/common/serial/StreamBuffer.cpp:211-219 | big-endian value of the next 4 bytes and cursor + 4, or 0 and no move |
| StreamBuffer.Stream.ReadI32 | VoidAssault/src/common/serial/StreamBuffer.cpp:221-231 | the uint32 read mapped to u or u - 2^32 above 0x7fffffff |
| StreamBuffer.Stream.ReadU64 | VoidAssault/src/common/serial/StreamBuffer.cpp:233-245 | big-endian value of the next 8 bytes and cursor + 8, or 0 and no move |
| StreamBuffer.Stream.ReadI64 | VoidAssault/src/common/serial/StreamBuffer.cpp:247-257 | the uint64 read mapped to u or u - 2^64 above 0x7fffffffffffffff |
| StreamBuffer.Stream.ReadString | VoidAssault/src/common/serial/StreamBuffer.cpp:282-293 | the length, then the payload when it is non-empty and fully present; otherwise "" with no payload consumed |
| StreamBuffer.Stream.ReadColor | VoidAssault/src/common/serial/StreamBuffer.cpp:318-324 | four byte reads r, g, b, a |
| StreamBuffer.Stream.Put | VoidAssault/src/common/serial/StreamBuffer.h:102-107 | the scalar `<<` appends exactly the value's write encoding |
| StreamBuffer.Stream.Get | VoidAssault/src/common/serial/StreamBuffer.h:109-114 | the scalar `>>` is the read overload of the requested kind |
| StreamBuffer.Stream.PutVector | VoidAssault/src/common/serial/StreamBuffer.h:80-88 | the vector `<<` appends the uint32 count then each element in order |
| StreamBuffer.Stream.GetVector | VoidAssault/src/common/serial/StreamBuffer.h:90-100 | the vector `>>` reads the count, then exactly that many elements |
| StreamBuffer.Merge | VoidAssault/src/common/serial/StreamBuffer.cpp:335-357 | a fresh stream holding a's bytes then b's, a null argument contributing nothing, cursors 0 |
| StreamBuffer.ToBytesByte | VoidAssault/src/common/serial/StreamBuffer.cpp:81-114 | byte j of the encoding is `(uint8_t)(x >> 8(k-1-j))`, as the writes compute it |
| StreamBuffer.WrittenBytes | VoidAssault/src/common/serial/StreamBuffer.cpp:81-114 | the shifted bytes the writes push are the k-byte big-endian encoding |
| StreamBuffer.BigEndianToBytes | VoidAssault/src/common/serial/StreamBuffer.cpp:192-245 | recombining the k big-endian bytes of x gives back x |
| StreamBuffer.BigEndian2 | VoidAssault/src/common/serial/StreamBuffer.cpp:192-197 | the 2-byte value is b0 shifted left by 8 or-ed with b1, as ReadU16 combines it |
| StreamBuffer.BigEndian4 | VoidAssault/src/common/serial/StreamBuffer.cpp:211-219 | the 4-byte value is the shifted-or of ReadU32 |
| StreamBuffer.BigEndian8 | VoidAssault/src/common/serial/StreamBuffer.cpp:233-245 | the 8-byte value is the shifted-or of ReadU64 |
| StreamBuffer.Signed | VoidAssault/src/common/serial/StreamBuffer.cpp:199-257 | the signed reading of a k-byte value lies in [-2^(8k-1), 2^(8k-1)) |
| StreamBuffer.SignedOfWrapped | VoidAssault/src/common/serial/StreamBuffer.cpp:136-139 | the uint64 cast of a signed 64-bit value is undone by the signed read |
| StreamBuffer.ReadUnsigned | VoidAssault/src/common/serial/StreamBuffer.cpp:192-245 | a k-byte read is below 2^(8k) |
| StreamBuffer.Default | VoidAssault/src/common/serial/StreamBuffer.cpp:176 | the value a failed read yields has the requested kind |
| StreamBuffer.Decode | VoidAssault/src/common/serial/StreamBuffer.cpp:174-324 | every read overload yields a value of its own kind |
| StreamBuffer.ReadUnsignedToBytes | VoidAssault/src/common/serial/StreamBuffer.cpp:192-245 | reading k bytes where x's k bytes were written returns x and advances by k, whatever surrounds them |
| StreamBuffer.DecodeEncoding | VoidAssault/src/common/serial/StreamBuffer.cpp:69-324 | for every writable value, the read of its kind at the write position yields it and moves past exactly the bytes written |
| StreamBuffer.DecodeEncodingBytes | VoidAssault/src/common/serial/StreamBuffer.cpp:164-184 | the bool, uint8 and Color round trips |
| StreamBuffer.DecodeEncodingInt | VoidAssault/src/common/serial/StreamBuffer.cpp:81-114 | the uint16, uint32, uint64 and time_t round trips |
| StreamBuffer.DecodeEncodingStr | VoidAssault/src/common/serial/StreamBuffer.cpp:282-293 | the string round trip, advancing 4 + length (an empty string reads back as empty after its 4 count bytes) |
| StreamBuffer.DecodeAtEnd | VoidAssault/src/common/serial/StreamBuffer.cpp:176-194 | at or past the end every read yields its default and does not move |
| StreamBuffer.DecodeAll | VoidAssault/src/common/serial/StreamBuffer.h:109-114 | chained reads yield one value per requested kind |
| StreamBuffer.EncodeAllAppend | VoidAssault/src/common/serial/StreamBuffer.h:102-107 | chained writes concatenate, left to right |
| StreamBuffer.DecodeAllEncodeAll | VoidAssault/src/common/serial/StreamBuffer.h:102-114 | chained reads of the written kinds yield the written values and end after them |
| StreamBuffer.DecodeAllAtEnd | VoidAssault/src/common/serial/StreamBuffer.cpp:194 | once the bytes run out every further read yields its default and the cursor stays |
| StreamBuffer.DecodeVectorEncodeVector | VoidAssault/src/common/serial/StreamBuffer.h:80-100 | a vector of fewer than 2^32 elements read back after `<<` is the same vector, cursor after it |
| StreamBuffer.VectorCountRead | VoidAssault/src/common/serial/StreamBuffer.h:83 | the count read first is the element count written |
| StreamBuffer.VectorLayout | VoidAssault/src/common/serial/StreamBuffer.h:80-88 | a written vector is the 4 count bytes followed by the elements' encodings |
| StreamBuffer.VectorElementsLayout | VoidAssault/src/common/serial/StreamBuffer.h:80-88 | the same bytes split after the count: the elements' encodings follow the 4 count bytes directly |
| StreamBuffer.DecodeVectorFrom | VoidAssault/src/common/serial/StreamBuffer.h:90-100 | a vector read is the count read followed by that many element reads, which give back the elements written after the count |
| StreamBuffer.DecodeVectorShape | VoidAssault/src/common/serial/StreamBuffer.h:93-99 | a vector read yields exactly the count read (empty when the count is unreadable), unreadable elements being defaults |
| CStrings.StrLen | VoidAssault/src/client/vircontrols/InGameKeyboard.h:56 | strlen: the index of the first NUL, with no NUL before it |
| CStrings.Text | VoidAssault/src/client/vircontrols/InGameKeyboard.h:56 | the C string a buffer holds: NUL-free, and followed by the terminator in the buffer |
| CStrings.StrLenAt | VoidAssault/src/client/vircontrols/InGameKeyboard.h:228 | a NUL at i with none before makes i the length |
| Keyboard.InGameKeyboard.constructor | VoidAssault/src/client/vircontrols/InGameKeyboard.h:15-21 | inactive, no target, cursor 0, neither shift nor symbols |
| Keyboard.InGameKeyboard.Show | VoidAssault/src/client/vircontrols/InGameKeyboard.h:49-58 | sets target, size and active, clears shift and symbols, cursor at strlen (0 with no target) |
| Keyboard.InGameKeyboard.Hide | VoidAssault/src/client/vircontrols/InGameKeyboard.h:60-65 | inactive and no target |
| Keyboard.Strlen | VoidAssault/src/client/vircontrols/InGameKeyboard.h:228 | the loop finds the text length of the buffer |
| Keyboard.InGameKeyboard.InsertChar | VoidAssault/src/client/vircontrols/InGameKeyboard.h:225-234 | with room left the text becomes s[..c] + ch + s[c..] and the cursor c + 1; with no target or strlen >= maxLen - 1 nothing changes; the text stays shorter than maxLen |
| Keyboard.InGameKeyboard.DeleteChar | VoidAssault/src/client/vircontrols/InGameKeyboard.h:236-244 | removes the character before the cursor and moves it back; nothing with no target or cursor <= 0 |
| Keyboard.InsertedText | VoidAssault/src/client/vircontrols/InGameKeyboard.h:230-232 | the memmove-and-store gives text s[..c] + ch + s[c..], one longer, still terminated |
| Keyboard.InsertedAt | VoidAssault/src/client/vircontrols/InGameKeyboard.h:230-232 | byte by byte: before the cursor unchanged, ch at it, the tail shifted right by one, beyond the NUL untouched |
| Keyboard.DeletedText | VoidAssault/src/client/vircontrols/InGameKeyboard.h:241 | the memmove gives text s[..c-1] + s[c..], one shorter |
| Keyboard.DeletedAt | VoidAssault/src/client/vircontrols/InGameKeyboard.h:241 | byte by byte: before c-1 unchanged, the tail shifted left by one |
| Keyboard.DeleteAfterInsert | VoidAssault/src/client/vircontrols/InGameKeyboard.h:225-244 | deleting the character just inserted restores the text; the only byte left changed is the one past the old terminator, now a NUL |
| Keyboard.InsertAfterDelete | VoidAssault/src/client/vircontrols/InGameKeyboard.h:225-244 | deleting then re-inserting the removed character restores the buffer exactly |
| Keyboard.TextPastEnd | VoidAssault/src/client/vircontrols/InGameKeyboard.h:230 | a byte after the terminator does not change the text |
| Keyboard.Row | VoidAssault/src/client/vircontrols/InGameKeyboard.h:25-44 | every key row is non-empty and NUL-free, chosen by mode as the Draw loop does |
| Keyboard.ShiftUpperCases | VoidAssault/src/client/vircontrols/InGameKeyboard.h:27-37 | shifted alphabet rows are the lower rows upper-cased key by key |
| Keyboard.ModeKey | VoidAssault/src/client/vircontrols/InGameKeyboard.h:177-183 | leaves symbols mode if on, otherwise toggles shift |
| Keyboard.SymbolsKey | VoidAssault/src/client/vircontrols/InGameKeyboard.h:195-197 | toggles symbols, keeps shift |
| Keyboard.ModeKeyRoundTrip | VoidAssault/src/client/vircontrols/InGameKeyboard.h:177-183 | the mode handler on its own, as the separate key was evidently meant to act: two presses, or "?123" then the mode handler, return to the starting mode |
| Keyboard.ModeButtonAsWritten | VoidAssault/src/client/vircontrols/InGameKeyboard.h:176-197 | a click on the mode key, inside the "?123" key, runs both handlers: it always ends in symbols mode, toggles shift only from the alphabet, changes nothing in symbols mode, and a second click does not undo it |
| Keyboard.InGameKeyboard.PressKey | VoidAssault/src/client/vircontrols/InGameKeyboard.h:121-157 | a key of the current row inserts its character when active |
| Keyboard.InGameKeyboard.PressBackspace | VoidAssault/src/client/vircontrols/InGameKeyboard.h:160-166 | deletes before the cursor, only outside symbols mode |
| Keyboard.InGameKeyboard.PressSpace | VoidAssault/src/client/vircontrols/InGameKeyboard.h:206-208 | inserts a space |
| Keyboard.InGameKeyboard.PressMode | VoidAssault/src/client/vircontrols/InGameKeyboard.h:176-197 | a click on the mode key when active: the mode handler, then the "?123" handler whose rectangle contains the key (ModeButton) |
| Keyboard.InGameKeyboard.PressSymbols | VoidAssault/src/client/vircontrols/InGameKeyboard.h:192-197 | a click on the part of "?123" outside the mode key, when active: toggles symbols |
| Keyboard.InGameKeyboard.PressLeft | VoidAssault/src/client/vircontrols/InGameKeyboard.h:200-202 | cursor - 1 only when > 0, so it stays within [0, strlen] |
| Keyboard.InGameKeyboard.PressRight | VoidAssault/src/client/vircontrols/InGameKeyboard.h:212-214 | cursor + 1 only when a target exists and cursor < strlen |
| Keyboard.InGameKeyboard.PressOk | VoidAssault/src/client/vircontrols/InGameKeyboard.h:217-219 | hides the keyboard |
| Snapshots.SnapshotManager.constructor | VoidAssault/src/client/SnapshotManager.h:12 | the history starts empty, and so Valid (strictly increasing in server time) |
| Snapshots.SnapshotManager.PushSnapshot | VoidAssault/src/client/SnapshotManager.h:27-37 | the history becomes Pushed(old history, snap) and stays Valid, strictly increasing in server time |
| Snapshots.PushedEffect | VoidAssault/src/client/SnapshotManager.h:28-32 | a snapshot no newer than the last is ignored; an accepted one becomes the back, and only front entries are dropped, never below 2 |
| Snapshots.PruneDropsOldPrefix | VoidAssault/src/client/SnapshotManager.h:34-36 | pruning drops a front prefix of entries older than back - 1 s; afterwards size <= 2 or front >= back - 1 s |
| Snapshots.PushedIncreasing | VoidAssault/src/client/SnapshotManager.h:28-36 | server times stay strictly increasing |
| Snapshots.IncreasingSnoc | VoidAssault/src/client/SnapshotManager.h:32 | appending a newer snapshot keeps the order |
| Snapshots.IncreasingSuffix | VoidAssault/src/client/SnapshotManager.h:35 | dropping from the front keeps the order |
| Snapshots.PruneIncreasing | VoidAssault/src/client/SnapshotManager.h:34-36 | pruning keeps the order |
| Snapshots.PushedWindow | VoidAssault/src/client/SnapshotManager.h:34-36 | after an accepted push the window condition holds |
| Snapshots.FindEntity | VoidAssault/src/client/SnapshotManager.h:94-102 | a found entity is in the snapshot with that id; none is found iff no entity has it |
| Snapshots.FindEntityFirst | VoidAssault/src/client/SnapshotManager.h:95-99 | the one found is the first with that id |
| Snapshots.FindEntityInSnapshot | VoidAssault/src/client/SnapshotManager.h:94-102 | the loop returns FindEntity |
| Snapshots.LowerBound | VoidAssault/src/client/SnapshotManager.h:44-47 | std::lower_bound: every entry before it is older than t, the one at it is not |
| Snapshots.LowerBoundPartition | VoidAssault/src/client/SnapshotManager.h:44-47 | on an increasing history every entry from it on is at least t |
| Snapshots.FromOption | VoidAssault/src/client/SnapshotManager.h:50 | found or not, as FindEntityInSnapshot reports |
| Snapshots.SnapshotManager.GetInterpolatedState | VoidAssault/src/client/SnapshotManager.h:40-91 | on a Valid (increasing) history, the result is Interpolated(history, id, t) |
| Snapshots.InterpolatedEmpty | VoidAssault/src/client/SnapshotManager.h:41 | an empty history gives false |
| Snapshots.InterpolatedBeforeFront | VoidAssault/src/client/SnapshotManager.h:49-51 | t at or before the first snapshot resolves against the front |
| Snapshots.InterpolatedAfterBack | VoidAssault/src/client/SnapshotManager.h:53-55 | t after the last resolves against the back |
| Snapshots.InterpolatedBracket | VoidAssault/src/client/SnapshotManager.h:57-90 | in A and B: B's fields, blended position, rotation unless a bullet; only in B: B's state; otherwise false |
| Snapshots.InterpolatedSound | VoidAssault/src/client/SnapshotManager.h:40-91 | whatever is returned has the asked id and comes from the history (A just before B) |
| MasterRegistry.Master.constructor | VoidAssault/src/server/main_master.cpp:22-24 | no lobbies, next id 1 |
| MasterRegistry.Registered | VoidAssault/src/server/main_master.cpp:80-92 | adds lobby nextLobbyId owned by the sender, keeps every other, counter + 1 modulo 2^32 |
| MasterRegistry.RegisterFresh | VoidAssault/src/server/main_master.cpp:79-90 | while ids stay below the counter the new id is unused, the registry grows by one and ids stay below the counter |
| MasterRegistry.RegisterTwice | VoidAssault/src/server/main_master.cpp:80-92 | a peer registering twice owns two lobbies with consecutive ids |
| MasterRegistry.RegisterKeyed | VoidAssault/src/server/main_master.cpp:92 | each lobby is stored under its own id |
| MasterRegistry.Master.Register | VoidAssault/src/server/main_master.cpp:80-92 | the state becomes Registered |
| MasterRegistry.Heartbeated | VoidAssault/src/server/main_master.cpp:100-107 | keys unchanged; only the lowest-id lobby of the sender gets players, wave and time |
| MasterRegistry.LowestOwnedExists | VoidAssault/src/server/main_master.cpp:100-101 | a sender owning a lobby has a lowest-id one |
| MasterRegistry.LowestOwnedUnique | VoidAssault/src/server/main_master.cpp:105 | that lobby is unique, so the loop breaks after one |
| MasterRegistry.HeartbeatTouchesOne | VoidAssault/src/server/main_master.cpp:100-107 | at most one lobby changes; an unknown sender changes nothing |
| MasterRegistry.HeartbeatedAt | VoidAssault/src/server/main_master.cpp:102-104 | the result is the registry with exactly that lobby beaten |
| MasterRegistry.HeartbeatKeyed | VoidAssault/src/server/main_master.cpp:100-107 | ids still match keys |
| MasterRegistry.Master.Heartbeat | VoidAssault/src/server/main_master.cpp:100-107 | the loop over ascending ids computes Heartbeated |
| MasterRegistry.DisconnectEffect | VoidAssault/src/server/main_master.cpp:56-64 | no lobby of the peer remains, every other is kept, and it is idempotent |
| MasterRegistry.DisconnectStep | VoidAssault/src/server/main_master.cpp:57-63 | one erase-or-advance step of the loop |
| MasterRegistry.Master.Disconnect | VoidAssault/src/server/main_master.cpp:54-65 | the erase loop computes Disconnected |
| MasterRegistry.SweepStep | VoidAssault/src/server/main_master.cpp:140-146 | one step of the timeout loop |
| MasterRegistry.SweepBoundary | VoidAssault/src/server/main_master.cpp:140 | a lobby exactly 30 s old survives, an older one goes, a fresh registration survives, and sweeping twice is sweeping once |
| MasterRegistry.DisconnectSweepKeyed | VoidAssault/src/server/main_master.cpp:56-64 | both removals keep ids matching keys |
| MasterRegistry.Master.Sweep | VoidAssault/src/server/main_master.cpp:137-148 | the loop computes Swept: exactly those with now - last > 30.0 go |
| MasterRegistry.IdLessTotal | VoidAssault/src/server/main_master.cpp:22 | `<` on uint32 is the strict total order of std::map's keys |
| MasterRegistry.LeastIdExists | VoidAssault/src/server/main_master.cpp:113 | a non-empty key set has a least id |
| MasterRegistry.LeastId | VoidAssault/src/server/main_master.cpp:113 | the next key std::map visits is the least remaining |
| MasterRegistry.InfoOf | VoidAssault/src/server/main_master.cpp:113-123 | one LobbyInfo per key listed |
| MasterRegistry.Ids | VoidAssault/src/server/main_master.cpp:113 | the ids of the registry, in iteration order |
| MasterRegistry.ListingSpec | VoidAssault/src/server/main_master.cpp:111-130 | every lobby listed once, ids strictly ascending, each entry's fields copied from its lobby |
| MasterRegistry.InfoOfCons | VoidAssault/src/server/main_master.cpp:122 | push_back builds the list element by element |
| MasterRegistry.InfoOfUnfold | VoidAssault/src/server/main_master.cpp:113 | the listing starts with the least id's info |
| MasterRegistry.ListStep | VoidAssault/src/server/main_master.cpp:111-123 | emitting the least remaining id keeps emitted + rest equal to the listing |
| MasterRegistry.Master.List | VoidAssault/src/server/main_master.cpp:111-123 | the loop computes Listing and changes nothing |
| MasterRegistry.StepSpec | VoidAssault/src/server/main_master.cpp:66-132 | a reply is sent iff the message is a list request past the gate; empty payloads, an offset past the end or decode errors change nothing; only a register moves the counter |
| MasterRegistry.StepKeyed | VoidAssault/src/server/main_master.cpp:51-135 | each message keeps ids matching keys |
| MasterRegistry.Master.HandleMessage | VoidAssault/src/server/main_master.cpp:52-134 | the dispatch computes Step |
| MasterRegistry.RoundSpec | VoidAssault/src/server/main_master.cpp:46-148 | after a poll round and the sweep no lobby is expired and ids match keys |
| MasterRegistry.Master.PollRound | VoidAssault/src/server/main_master.cpp:47-148 | one loop iteration: every message, then the sweep |
| DecimalText.Decimal | VoidAssault/src/server/MasterServerLogic.h:67 | std::to_string: non-empty digits, one digit exactly below 10 |
| DecimalText.DecimalInjective | VoidAssault/src/server/MasterServerLogic.h:67 | different numbers have different decimal texts |
| MasterServerLogic.LastColon | VoidAssault/src/server/MasterServerLogic.h:67 | the position of the last ':' in a key, or -1 |
| MasterServerLogic.LastColonAfter | VoidAssault/src/server/MasterServerLogic.h:67 | the separator is the last ':' of the key, since the decimal port has none |
| MasterServerLogic.KeyInjective | VoidAssault/src/server/MasterServerLogic.h:65-67 | `ip + ":" + port` determines ip and port, so one lobby per address |
| MasterServerLogic.RegisterSpec | VoidAssault/src/server/MasterServerLogic.h:69-81 | the key's entry is overwritten with players 0 and time now; other addresses are kept; at most one entry is added |
| MasterServerLogic.HeartbeatSpec | VoidAssault/src/server/MasterServerLogic.h:83-89 | keys unchanged; only an existing key gets time and players; an unknown one changes nothing |
| MasterServerLogic.SweepBoundary | VoidAssault/src/server/MasterServerLogic.h:50-58 | a lobby exactly 15 s old survives, an older one goes, a fresh registration survives |
| MasterServerLogic.SweepStep | VoidAssault/src/server/MasterServerLogic.h:50-58 | one erase-or-advance step of the timeout loop |
| MasterServerLogic.MasterServer.Sweep | VoidAssault/src/server/MasterServerLogic.h:49-58 | the loop computes Swept: exactly those with now - last > 15.0 go |
| MasterServerLogic.StrNCopy | VoidAssault/src/server/MasterServerLogic.h:116-117 | strncpy fills the whole field |
| MasterServerLogic.StrNCopyText | VoidAssault/src/server/MasterServerLogic.h:116-117 | copying at most 31 of 32 bytes leaves a terminated prefix of at most 31 characters |
| MasterServerLogic.IpFieldAsWritten | VoidAssault/src/server/MasterServerLogic.h:114 | `strncpy(ip, buf, 16)` fills the 16-byte field |
| MasterServerLogic.IpFieldAsWrittenSpec | VoidAssault/src/server/MasterServerLogic.h:114 | the sent field starts with the host text's first 16 characters, and has a NUL iff the host text is shorter than 16, when it holds the whole text |
| MasterServerLogic.IpFieldUnterminated | VoidAssault/src/server/MasterServerLogic.h:114 | an IPv6 text of 16 or more characters leaves the field without a NUL |
| MasterServerLogic.IpField | VoidAssault/src/server/MasterServerLogic.h:114 | the corrected copy of at most 15 bytes fills the field |
| MasterServerLogic.IpFieldTerminated | VoidAssault/src/server/MasterServerLogic.h:114 | the corrected field is terminated and holds the first at most 15 characters |
| MasterServerLogic.EntriesOf | VoidAssault/src/server/MasterServerLogic.h:105-119 | one entry per key, in order, each built as the loop body builds it, the ip by the 16-byte strncpy of line 114 |
| MasterServerLogic.Keys | VoidAssault/src/server/MasterServerLogic.h:105 | the keys in std::map order |
| MasterServerLogic.EntryOfSpec | VoidAssault/src/server/MasterServerLogic.h:107-117 | entry i has id i, the lobby's players, max players and game port, and its name and map cut to 31 characters with a NUL; the ip field holds the host text's first 16 characters and has a NUL (the whole host text) exactly when that text is shorter than 16 |
| MasterServerLogic.ListResponseSpec | VoidAssault/src/server/MasterServerLogic.h:96-119 | type LIST_RES, count = number of lobbies (uint16 cast), every lobby once in ascending key order with ids 0..n-1, each entry as EntryOfSpec states, an unterminated ip field included |
| MasterServerLogic.EntriesOfCons | VoidAssault/src/server/MasterServerLogic.h:118 | the running index goes up by one per entry |
| MasterServerLogic.PendingBounds | VoidAssault/src/server/MasterServerLogic.h:105 | the entries still to write start as the whole response and end empty |
| MasterServerLogic.PendingUnfold | VoidAssault/src/server/MasterServerLogic.h:105-118 | the next entry is the least remaining key's |
| MasterServerLogic.ProgressStep | VoidAssault/src/server/MasterServerLogic.h:105-118 | writing the least remaining key's entry keeps the loop invariant |
| MasterServerLogic.ProgressBounds | VoidAssault/src/server/MasterServerLogic.h:104-119 | the invariant holds before the loop and yields the response after it |
| MasterServerLogic.LeastKey | VoidAssault/src/server/MasterServerLogic.h:105 | the key std::map visits next is the least remaining one |
| MasterServerLogic.MasterServer.SendList | VoidAssault/src/server/MasterServerLogic.h:95-123 | the filled buffer is ListResponse of the lobbies, its ip fields copied as line 114 copies them; nothing changes |
| MasterServerLogic.OnPacketSpecGate | VoidAssault/src/server/MasterServerLogic.h:61-93 | short packets and unknown types change nothing; a reply goes out iff the packet is a list request, which changes nothing |
| MasterServerLogic.OnPacketInRange | VoidAssault/src/server/MasterServerLogic.h:61-93 | player counts stay within a byte |
| MasterServerLogic.MasterServer.OnPacket | VoidAssault/src/server/MasterServerLogic.h:61-93 | the handler computes OnPacketSpec; a LIST_REQ is answered with ListResponse, the as-written ip copy included |
| MasterServerLogic.ServeSpec | VoidAssault/src/server/MasterServerLogic.h:34-59 | after an update no lobby is expired; disconnect events change nothing |
| MasterServerLogic.MasterServer.constructor | VoidAssault/src/server/MasterServerLogic.h:22-23 | no host, no lobbies |
| MasterServerLogic.MasterServer.Start | VoidAssault/src/server/MasterServerLogic.h:26-32 | succeeds iff the host was created |
| MasterServerLogic.MasterServer.Update | VoidAssault/src/server/MasterServerLogic.h:34-59 | without a host nothing happens; otherwise events are served (list replies as SendList builds them), then the sweep |
| Ordering.LeastExists | VoidAssault/src/server/MasterServerLogic.h:105 | a non-empty finite set of keys under a strict total order has a least key |
| Ordering.LeastUnique | VoidAssault/src/server/MasterServerLogic.h:105 | the least key is unique |
| Ordering.SortedKeysUnfold | VoidAssault/src/server/MasterServerLogic.h:105 | ascending enumeration starts with the least key |
| Ordering.SortedKeysSpec | VoidAssault/src/server/MasterServerLogic.h:105 | std::map iteration visits every key once, strictly ascending |
| Ordering.IntLessTotal | VoidAssault/src/server/main_master.cpp:22 | integer `<` is a strict total order |
| Ordering.LexLessTotal | VoidAssault/src/server/MasterServerLogic.h:23 | std::string's `<` is a strict total order |
| Ordering.LexIrreflexive | VoidAssault/src/server/MasterServerLogic.h:23 | lexicographic `<` is irreflexive |
| Ordering.LexTransitive | VoidAssault/src/server/MasterServerLogic.h:23 | lexicographic `<` is transitive |
| Ordering.LexTotal | VoidAssault/src/server/MasterServerLogic.h:23 | distinct strings are ordered one way |
| Config.Lookup | VoidAssault/src/engine/Utils/ConfigManager.cpp:72 | a member is found iff the object has that key, with its value |
| Config.Convert | VoidAssault/src/engine/Utils/ConfigManager.cpp:72-79 | a converted value has the default's type |
| Config.ValueAt | VoidAssault/src/engine/Utils/ConfigManager.cpp:72-79 | `value(key, default)` yields the default's type, or fails (throws) |
| Config.Get | VoidAssault/src/engine/Utils/ConfigManager.cpp:72-97 | each field holds a value of its default's type |
| Config.GetSet | VoidAssault/src/engine/Utils/ConfigManager.cpp:72-97 | setting one field changes only that field |
| Config.GetIgnoresFavorites | VoidAssault/src/engine/Utils/ConfigManager.cpp:81-90 | the favourites are separate from the scalar fields |
| Config.ReadFieldsAll | VoidAssault/src/engine/Utils/ConfigManager.cpp:72-79 | when every value converts, each listed field takes the JSON value or its default and every other field is kept |
| Config.ReadFieldsKeeps | VoidAssault/src/engine/Utils/ConfigManager.cpp:72-97 | language, fullscreen and favourites are never read as fields |
| Config.ClientFieldsDistinct | VoidAssault/src/engine/Utils/ConfigManager.cpp:72-79 | the eight client fields are distinct |
| Config.ServerFieldsDistinct | VoidAssault/src/engine/Utils/ConfigManager.cpp:93-97 | the five server fields are distinct |
| Config.SectionsDisjoint | VoidAssault/src/engine/Utils/ConfigManager.cpp:72-97 | no field is read from both sections |
| Config.ReadFavoritesAll | VoidAssault/src/engine/Utils/ConfigManager.cpp:83-89 | with good entries, the list is replaced by one SavedServer per element, in order |
| Config.SavedFields | VoidAssault/src/engine/Utils/ConfigManager.cpp:85-87 | missing fields default to "Server", "127.0.0.1", 7777; a boolean port converts; a non-string ip throws |
| Config.ReadFavoritesStops | VoidAssault/src/engine/Utils/ConfigManager.cpp:83-88 | a non-object element throws after the earlier ones were pushed |
| Config.LoadFavoritesStop | VoidAssault/src/engine/Utils/ConfigManager.cpp:83-88 | the first failing element ends the loop with what was pushed |
| Config.ReadFavoritesPrefixFails | VoidAssault/src/engine/Utils/ConfigManager.cpp:83-88 | a failure in a prefix decides the whole loop |
| Config.ReadClientSectionFields | VoidAssault/src/engine/Utils/ConfigManager.cpp:70-79 | every client field takes the JSON value or its default; server fields are kept |
| Config.ReadClientSectionFavorites | VoidAssault/src/engine/Utils/ConfigManager.cpp:81-90 | favourites are replaced wholesale only when "favorites" is present |
| Config.LoadClientOnly | VoidAssault/src/engine/Utils/ConfigManager.cpp:69-91 | a file with only a client section loads exactly that section |
| Config.LoadBoth | VoidAssault/src/engine/Utils/ConfigManager.cpp:69-97 | with both sections well typed, every client field takes its "client" member or its default, every server field its "server" member or its default, and the favourites are the client section's |
| Config.LoadTypeError | VoidAssault/src/engine/Utils/ConfigManager.cpp:72-100 | a playerName of the wrong type throws, and the default configuration is created |
| Config.LoadClientNotObject | VoidAssault/src/engine/Utils/ConfigManager.cpp:71-100 | a client section that is not an object throws into the defaults |
| Config.LoadMissing | VoidAssault/src/engine/Utils/ConfigManager.cpp:64-67 | no file gives the default values with Localhost appended to the favourites; an unopenable file changes nothing |
| Config.LoadKeepsLanguage | VoidAssault/src/engine/Utils/ConfigManager.cpp:64-102 | Load never reads language or fullscreen |
| Config.LoadNoSections | VoidAssault/src/engine/Utils/ConfigManager.cpp:70-92 | a document with neither section changes nothing |
| Config.ConfigManager.constructor | VoidAssault/src/engine/Utils/ConfigManager.cpp:4-7 | the initial configuration and an empty string table |
| Config.ConfigManager.CreateDefaultConfig | VoidAssault/src/engine/Utils/ConfigManager.cpp:20-31 | the configuration becomes Defaulted |
| Config.ConfigManager.LoadFavorites | VoidAssault/src/engine/Utils/ConfigManager.cpp:82-89 | the clear-and-push loop computes ReadFavorites and touches nothing else |
| Config.ConfigManager.Load | VoidAssault/src/engine/Utils/ConfigManager.cpp:64-102 | the configuration becomes Loaded, whose section steps LoadBoth, LoadClientOnly and the error lemmas state |
| Config.FillKeys | VoidAssault/src/engine/Utils/ConfigManager.cpp:126 | the table only gains keys of the items |
| Config.FillValues | VoidAssault/src/engine/Utils/ConfigManager.cpp:126 | with string values, every item ends up in the table |
| Config.FillKeeps | VoidAssault/src/engine/Utils/ConfigManager.cpp:126 | keys not among the items keep their value |
| Config.LanguageTableFresh | VoidAssault/src/engine/Utils/ConfigManager.cpp:119-131 | the table is cleared first: no key of the previous language survives, and a missing or unparsable file leaves it empty |
| Config.ConfigManager.LoadLanguage | VoidAssault/src/engine/Utils/ConfigManager.cpp:119-131 | the string table becomes that of lang_<code>.json |
| Config.Text | VoidAssault/src/engine/Utils/ConfigManager.cpp:133-136 | the localised string when present, otherwise the key |
| Config.TextAfterLoad | VoidAssault/src/engine/Utils/ConfigManager.cpp:119-136 | after loading, each item's key gives its string and any other key gives itself |
| Config.ConfigManager.GetCurrentLangName | VoidAssault/src/engine/Utils/ConfigManager.cpp:138-142 | "lang_name" if present, otherwise the language code |
| Config.NextLanguage | VoidAssault/src/engine/Utils/ConfigManager.cpp:146-151 | the result is en or ru, and ru exactly when the code was en |
| Config.CycleTwice | VoidAssault/src/engine/Utils/ConfigManager.cpp:144-151 | two cycles from en or ru return to the start; any other code goes to en then ru |
| Config.ConfigManager.CycleLanguage | VoidAssault/src/engine/Utils/ConfigManager.cpp:144-154 | only the language changes, and the new language's table is loaded |
| Gameplay.GameplayScene.constructor | VoidAssault/src/client/scenes/GameplayScene.cpp:14-16 | six empty (255) slots, no selection |
| Gameplay.GameplayScene.Enter | VoidAssault/src/client/scenes/GameplayScene.cpp:24-31 | player id 0, level 1, scrap 0, wave 1, no selection, every slot empty |
| Gameplay.GameplayScene.OnMessage | VoidAssault/src/client/scenes/GameplayScene.cpp:87-139 | empty data or an offset past the end changes nothing; INIT sets the id only when decoded; STATS sets the stats and replaces the inventory only with exactly 6 slots; SNAPSHOT sets the wave |
| Gameplay.TurretCountSpec | VoidAssault/src/client/scenes/GameplayScene.cpp:450-455 | the turret count is at most the entity count and adds up over a split |
| Gameplay.TurretCountOthers | VoidAssault/src/client/scenes/GameplayScene.cpp:453 | a non-turret or another owner's turret never counts |
| Gameplay.GameplayScene.CountTurrets | VoidAssault/src/client/scenes/GameplayScene.cpp:450-455 | the loop counts the player's TURRET entities |
| Gameplay.EnabledSpec | VoidAssault/src/client/scenes/GameplayScene.cpp:443-464 | wall iff scrap >= 10, turret iff scrap >= 50 and fewer than 5 turrets, mine iff scrap >= 25 |
| Gameplay.OneClick | VoidAssault/src/client/scenes/GameplayScene.cpp:464-467 | clicking an enabled button selects its type, or clears the selection if that type was selected; a disabled button does nothing |
| Gameplay.AfterButtonsRange | VoidAssault/src/client/scenes/GameplayScene.cpp:457-469 | the selection stays a build type or none |
| Gameplay.TurretCap | VoidAssault/src/client/scenes/GameplayScene.cpp:461 | with five turrets the turret button cannot change the selection |
| Gameplay.GameplayScene.BuildButtons | VoidAssault/src/client/scenes/GameplayScene.cpp:450-469 | the selection after the three buttons is AfterButtons of the latest snapshot's turret count |
| Gameplay.SendAction | VoidAssault/src/client/scenes/GameplayScene.cpp:64-72 | an action goes out only over a connected client |
| Gameplay.GameplayScene.HandleInput | VoidAssault/src/client/scenes/GameplayScene.cpp:209-227 | selection, action sent and shooting follow InputStep; F1 toggles the admin panel only for admins; TAB toggles the leaderboard |
| Gameplay.InputStepSpec | VoidAssault/src/client/scenes/GameplayScene.cpp:209-227 | a left click sends the selected type, or UPGRADE_BUILDING without one, and clears the selection unless shift is held; a right click clears it |
| Gameplay.PlaceAlsoShoots | VoidAssault/src/client/scenes/GameplayScene.cpp:213-225 | a placement without shift also shoots in the same frame, since the shooting check sees the cleared selection |
| Gameplay.PlayersSpec | VoidAssault/src/client/scenes/GameplayScene.cpp:412 | the filter keeps exactly the PLAYER entities, each as often as it occurs |
| Gameplay.InsertByKills | VoidAssault/src/client/scenes/GameplayScene.cpp:413 | insertion adds exactly the one entity |
| Gameplay.InsertByKillsSorted | VoidAssault/src/client/scenes/GameplayScene.cpp:413 | inserting into a kills-descending list keeps it descending |
| Gameplay.InsertByKillsBelow | VoidAssault/src/client/scenes/GameplayScene.cpp:413 | entries after the head have no more kills than it |
| Gameplay.GameplayScene.Leaderboard | VoidAssault/src/client/scenes/GameplayScene.cpp:411-413 | a permutation of the players, kills non-increasing |
| Gameplay.LeaderboardSpec | VoidAssault/src/client/scenes/GameplayScene.cpp:411-413 | the board holds only players from the snapshot, each player as often as there |
| TreeMerger.LastDot | VoidAssault/src/reader.py:18 | the last '.' of the name, with no dot after it, or none |
| TreeMerger.Extension | VoidAssault/src/reader.py:18 | splitext's extension is empty or a single-dot suffix of the name |
| TreeMerger.ExtensionEmpty | VoidAssault/src/reader.py:18 | a name without a dot, or of dots only, has no extension |
| TreeMerger.LastDotAppend | VoidAssault/src/reader.py:18 | dotless characters after the last dot leave it last |
| TreeMerger.ExtensionOf | VoidAssault/src/reader.py:18 | stem + "." + ext has extension "." + ext |
| TreeMerger.LowerChar | VoidAssault/src/reader.py:19 | upper-case ASCII letters map to lower case, others to themselves |
| TreeMerger.Lower | VoidAssault/src/reader.py:19 | lower() maps every character, keeping the length |
| TreeMerger.UpperCaseEntryNeverMatches | VoidAssault/src/reader.py:19 | the entries are not lowered, so one with an upper-case letter never matches |
| TreeMerger.LoweredExtensionMatches | VoidAssault/src/reader.py:18-19 | the extension is lowered before the lookup, so [".cpp"] admits "main.CPP" |
| TreeMerger.UpperCaseEntryRejects | VoidAssault/src/reader.py:19 | the entries are not lowered, so [".CPP"] rejects "main.CPP" |
| TreeMerger.DotFileRejected | VoidAssault/src/reader.py:18-20 | splitext gives ".cpp" no extension, so [".cpp"] rejects a file named ".cpp" |
| TreeMerger.Kept | VoidAssault/src/reader.py:17-20 | the filter keeps at most the files it is given |
| TreeMerger.KeptMembers | VoidAssault/src/reader.py:17-20 | a file is kept iff it is in the walk and passes the filter; with None every file is |
| TreeMerger.Records | VoidAssault/src/reader.py:22-28 | one record per kept file, in order |
| TreeMerger.Flatten | VoidAssault/src/reader.py:11-12 | the walk's files in folder-then-file order, every one of them |
| TreeMerger.ConcatAppend | VoidAssault/src/reader.py:22-28 | successive writes concatenate |
| TreeMerger.KeptAppend | VoidAssault/src/reader.py:11-20 | the filter applies file by file |
| TreeMerger.MergedAppend | VoidAssault/src/reader.py:11-28 | the output of a walk split in two is the two outputs in turn |
| TreeMerger.MergedStep | VoidAssault/src/reader.py:12-28 | one more file appends its record, or nothing when filtered out |
| TreeMerger.MergedOne | VoidAssault/src/reader.py:17-28 | a single kept file writes its record ("\n// " + path + "\n", then its text or the error line); an excluded one writes nothing |
| TreeMerger.MergedAtKept | VoidAssault/src/reader.py:22-28 | a kept file contributes its record in place, whether its read succeeded or not, and the loop goes on |
| TreeMerger.MergedAtSkipped | VoidAssault/src/reader.py:19-20 | an excluded file contributes nothing |
| TreeMerger.MergedNoFilter | VoidAssault/src/reader.py:17 | with no extensions every file's record is written |
| TreeMerger.WriteFile | VoidAssault/src/reader.py:16-28 | the inner loop body writes exactly the record of a kept file |
| TreeMerger.WriteFolder | VoidAssault/src/reader.py:12-28 | the loop over one folder's files appends exactly that folder's records, in order |
| TreeMerger.FolderStep | VoidAssault/src/reader.py:12-28 | one more file of the folder extends the output by that file's record |
| TreeMerger.MergeFiles | VoidAssault/src/reader.py:3-28 | the file, opened with "w", holds exactly this run's records in walk order |

## Left out

- Floating point: the float and double writes and reads (`pack754_32/64` are
  not part of this model), Vector2, Vector3 and Quaternion. The same goes for
  the interpolation arithmetic (`LerpAngle`, `Vector2Lerp`, clamping t). A
  blended result is returned as the pair of entity states it blends.
- `writeToFile`, the JSON parser, `LoadFileText`, the fonts and `Save`. These
  are file I/O; Save's JSON layout is not modelled.
- ENet and bitsery: hosts, peers, packet creation and (de)serialisation. A
  decoded packet is an input. In MasterServerLogic.h the packet is cast as raw
  bytes: the model reads named fields and does not capture reading them
  without a length check, or `serverName` read up to its first NUL.
- `enet_address_get_host_ip`: the peer's ip text is an input.
- Threads and the mutexes of main_master.cpp. Each round is modelled
  sequentially.
- Rendering, audio, particles, the camera, client-side prediction, the
  joystick and the Android branches of GameplayScene.cpp. The snapshot's
  effect on the predicted position and on myHealth is left out. Only the wave
  it carries is modelled.
- The EVENT packet of GameplayScene.cpp, which only spawns effects.
- The type-byte error check in OnMessage. After the offset < size guard one
  byte is always available, so the check cannot fail and has no case in the
  model.
- Gameplay.GameplayScene.Leaderboard: does not fix the order among equal kill
  counts, because std::sort is not stable and leaves it unspecified. The
  proved contract is sortedness plus permutation.
- TreeMerger.Lower: lowers ASCII letters only, because Python's full Unicode
  case mapping is not modelled.
- TreeMerger.MergeFiles: takes the walk, the relative paths and the read
  outcomes as input. `os.walk`, `os.path.relpath`, `open` and UTF-8 decoding
  are not modelled.
- Config: nlohmann's narrowing of a large JSON number into an `int` field is
  not modelled. Integers are unbounded.
- StreamBuffer.Stream.WriteString: requires fewer than 2^32 bytes, because
  with a longer string the uint32 loop index wraps and the source loop never
  ends.
- fix_win32_compatibility.h, the LZ4 compression helper and GameClient's frame
  loop are not part of this model.
- Keyboard.InGameKeyboard: assumes the target buffer changes only through the
  keyboard's own methods. The raygui `GuiTextBox` drawn over it (line 94 of
  InGameKeyboard.h) and the owning scene can also edit it. `Valid()` then
  excludes two cases the source does not prevent: a buffer with no NUL, and a
  text shorter than `cursorIndex`. In the second, `InsertChar` and
  `DeleteChar` pass `len - cursorIndex + 1 < 0` to `memmove` as a huge
  `size_t`; the model does not capture that.
- Config: a `JObject` is a list of members, so it can hold duplicate or
  unsorted keys, which nlohmann's map-backed object never has. For such
  documents `Lookup` takes the first match, and `Items` iterates in list
  order rather than key order.
- TreeMerger.MergeFiles: both files are opened in text mode (reader.py lines
  10 and 25). Python then reads CRLF input as "\n" and writes each "\n" as
  `os.linesep`. The model's records use a bare "\n" and the file text as
  given.
- StreamBuffer.Stream: the model's cursors are unbounded `nat`. The source's
  bounds tests, such as `gpos_ + 2 > buffer_.size()` (StreamBuffer.cpp lines
  194, 213 and 235), are `size_t` sums. After a `seekg` near `SIZE_MAX` they
  wrap and pass.

## Findings

| source | as written | input that shows it | evidently intended | confidence | as-written member | corrected member |
|---|---|---|---|---|---|---|
| VoidAssault/src/server/MasterServerLogic.h:114 | `strncpy(infos[i].ip, ipBuf, 16)` into the 16-byte ip field copies up to 16 bytes, so an address text of 16 or more characters leaves the field without a terminating NUL | a lobby whose peer address is "fe80::1ff:fe23:4567:890a" | copy at most 15 bytes, as the name and map fields do with 31 of 32, so the field stays NUL-terminated | not executed | MasterServerLogic.IpFieldUnterminated | MasterServerLogic.IpFieldTerminated |
| VoidAssault/src/client/vircontrols/InGameKeyboard.h:193 | `cx = padding;` puts the W/6-wide "?123" button at the same corner as the 0.15 W-wide mode button (line 177), so its rectangle contains the mode button and one click on the mode key runs both handlers | a click on the mode key in the lower-case alphabet: shift turns on and the keyboard switches to symbols; in symbols mode the click changes nothing | `cx` is not reset, so "?123" sits to the right of the mode button and a click on the mode key only toggles shift or leaves symbols mode | not executed | Keyboard.ModeButtonAsWritten | Keyboard.ModeKeyRoundTrip |

In both rows the operations (`MasterServer.SendList`, `InGameKeyboard.PressMode`)
follow the code as written. The corrected member states the intended
behaviour beside them.
