# pingsess session adapters in Dafny

pingsess (PHP namespace `Odan\Session`) gives an application a key/value
session behind one interface (`start`, `get`, `set`, `setValues`, `has`,
`delete`, `clear`, `all`, `save`, `destroy`, `regenerateId`). Four adapters
keep the session in four different places:

- `FilesystemSession` keeps the state in memory and writes it through to
  the file `name/id.json` on every change.
- `RedisSession` keeps the state in memory; `save()` stores it under the id.
- `PdoSession` keeps nothing but the id in memory; every call reads or writes
  rows `(id, name, value, expiry)` of a SQL table.
- `MemcachedSession` keeps nothing but the id in memory; `get`/`has`/`set`/
  `delete` use one cache entry per key (`id.key`), while `setValues`/`all`/
  `clear`/`save` use one blob under the bare id.

Each adapter is a Dafny class whose fields are the PHP object's fields. The
backend each one talks to is a class holding a `map`: a file system (path to
decoded state), a Redis server (key to record), a session table (`(id, name)`
to row) and a Memcached server (key to item). The methods update these maps
in place, and their contracts say what the new state is. Lemmas about the
map-level functions prove what the adapters promise: write-through, isolation
between keys and between sessions, idempotence of `save`, and the effect of
`set`/`delete`/`clear` on `get`/`has`/`all`.

Shared pieces: `SessionValues` holds the PHP values, session state, errors and
`array_merge`. `SessionIds` holds id generation (`str_replace('.', '',
uniqid('sess_', true))`) and the Memcached composite key `id.key`. Its
lemmas prove that generated ids carry the `sess_` prefix and no dot, and that
composite keys are therefore injective and never collide with a bare id.

The read-only queries `get`, `has`, `all` and `isStarted` are the functions
`Get`, `Has`, `All` and `IsStarted` of each class. They read the fields (and,
for PDO and Memcached, the backend map) and change nothing. The PDO `all()`
loops over fetched rows, so there it is a method.

## Model

| member | source | states |
|---|---|---|
| SessionValues.ArrayMerge | src/FilesystemSession.php:111-115 | `array_merge` on string keys: the keys are the union; a key of the second array takes its value, every other key keeps the first array's |
| SessionIds.StripDots | src/FilesystemSession.php:68-71 | `str_replace('.', '', s)`: the result holds no dot, is no longer than `s`, and is `s` itself when `s` has no dot |
| SessionIds.StripDotsAppend | src/FilesystemSession.php:68-71 | removing dots distributes over concatenation, so the `sess_` prefix survives |
| SessionIds.NewId | src/FilesystemSession.php:68-71 | every id `regenerateId()` issues starts with `sess_` and holds no dot |
| SessionIds.Uniqid | src/FilesystemSession.php:68-71 | `uniqid('sess_', true)`: the prefix followed by clock-derived characters, which the caller supplies |
| SessionIds.CompositeKey | src/MemcachedSession.php:89-93 | `id . '.' . key`: the id, one dot, then the key |
| SessionIds.CompositeKeyInjective | src/MemcachedSession.php:89-93 | for dot-free ids, `id.'.'.key` determines both the id and the key |
| SessionIds.CompositeKeyNotBareId | src/MemcachedSession.php:95-99 | a composite key is never a dot-free bare id, so per-key entries and blobs never share a cache key |
| SessionIds.BareIdNotKeyOf | src/MemcachedSession.php:122-125 | a dot-free bare id never begins with `id.` of any session |
| SessionIds.CompositeKeyOwner | src/MemcachedSession.php:101-104 | a composite key begins with `id.` exactly when it was built from `id` |
| FilesystemSessions.SessionPath | src/FilesystemSession.php:105-109 | `name/id.json`: the namespace, a slash, the id, then `.json` |
| FilesystemSessions.SessionPathInjective | src/FilesystemSession.php:105-109 | within one namespace, distinct ids have distinct files |
| FilesystemSessions.FilesystemSession.constructor | src/FilesystemSession.php:27-49 | as written: a fresh id is always issued; the state is the file of that new id when it exists, else empty; state and file agree |
| FilesystemSessions.FilesystemSession.Resume | src/FilesystemSession.php:42-46 | as intended: the session takes the given id and its state is that id's file, or empty when there is none |
| FilesystemSessions.FilesystemSession.IsStarted | src/FilesystemSession.php:63-66 | the started flag |
| FilesystemSessions.FilesystemSession.Get | src/FilesystemSession.php:91-98 | the value of `all()` under the key when `has(key)`, the default otherwise |
| FilesystemSessions.FilesystemSession.All | src/FilesystemSession.php:100-103 | the in-memory state |
| FilesystemSessions.FilesystemSession.Has | src/FilesystemSession.php:117-120 | true exactly when the key is a key of `all()` |
| FilesystemSessions.FilesystemSession.Start | src/FilesystemSession.php:56-61 | sets the started flag; a second call changes nothing |
| FilesystemSessions.FilesystemSession.RegenerateId | src/FilesystemSession.php:68-71 | the id becomes a new `sess_` id without dots; the files are untouched |
| FilesystemSessions.FilesystemSession.Destroy | src/FilesystemSession.php:73-79 | exactly the old id's file is deleted (so it is gone afterwards), a new id is issued and the state emptied |
| FilesystemSessions.FilesystemSession.Set | src/FilesystemSession.php:105-109 | the key is stored, `has`/`get` see it, other keys keep their values, the file holds the new state and other sessions' files are unchanged |
| FilesystemSessions.FilesystemSession.SetValues | src/FilesystemSession.php:111-115 | the state becomes `array_merge(state, values)` and is written through |
| FilesystemSessions.FilesystemSession.Delete | src/FilesystemSession.php:122-126 | as written: the key leaves the state, then the call raises before writing, so a file that held the key goes out of step with the state |
| FilesystemSessions.FilesystemSession.DeleteWriteThrough | src/FilesystemSession.php:122-126 | as intended: the key leaves the state and the file holds the new state |
| FilesystemSessions.FilesystemSession.Clear | src/FilesystemSession.php:128-132 | the session file is deleted and the state emptied; the id is kept |
| FilesystemSessions.FilesystemSession.Save | src/FilesystemSession.php:134-138 | changes nothing: every change was already written |
| FilesystemSessions.DeletedKeyStaysInFile | src/FilesystemSession.php:122-126 | after `set('user', …)` and `delete('user')`, `has('user')` is false while the file still holds `user` |
| FilesystemSessions.FileNotReloaded | src/FilesystemSession.php:38-46 | as written: after one session writes `cart` to its file, a second session on the same file system starts empty |
| FilesystemSessions.SetThenResume | src/FilesystemSession.php:105-109 | with `Resume`, a session resumed under an earlier session's id holds exactly what that session wrote |
| RedisSessions.RedisSession.constructor | src/RedisSession.php:42-46 | as written: the id is still empty, so the state is the record stored under key `""` |
| RedisSessions.RedisSession.Resume | src/RedisSession.php:42-46 | as intended: the state is the record saved under the given id |
| RedisSessions.Stored | src/RedisSession.php:42-46 | the state `get` of a key yields: the stored record, or empty when `exists` fails |
| RedisSessions.RedisSession.IsStarted | src/RedisSession.php:65-68 | the started flag |
| RedisSessions.RedisSession.Get | src/RedisSession.php:94-97 | `??`: the value of `all()` under the key when present and not null, the default otherwise |
| RedisSessions.RedisSession.All | src/RedisSession.php:99-102 | the in-memory state |
| RedisSessions.RedisSession.Has | src/RedisSession.php:116-119 | true exactly when the key is a key of `all()`, even when its value is null |
| RedisSessions.RedisSession.Start | src/RedisSession.php:56-63 | issues an id only when there is none, and sets the started flag |
| RedisSessions.RedisSession.RegenerateId | src/RedisSession.php:70-73 | the id becomes a new `sess_` id without dots; Redis is untouched |
| RedisSessions.RedisSession.Destroy | src/RedisSession.php:75-82 | the state is emptied and a new id issued; nothing in Redis changes |
| RedisSessions.RedisSession.Set | src/RedisSession.php:104-107 | the key is stored and `has` sees it, `get` yields it unless it is null, other keys are unchanged, Redis is untouched |
| RedisSessions.RedisSession.SetValues | src/RedisSession.php:109-114 | the loop of assignments yields `array_merge(state, values)` |
| RedisSessions.RedisSession.Delete | src/RedisSession.php:121-124 | exactly the key leaves the state |
| RedisSessions.RedisSession.Clear | src/RedisSession.php:126-132 | the loop of unsets leaves the state empty |
| RedisSessions.RedisSession.Save | src/RedisSession.php:134-144 | as written: `setex` is called with four arguments, so the call fails and Redis is left unchanged |
| RedisSessions.RedisSession.SaveRecord | src/RedisSession.php:134-144 | as intended: the state is stored under the id with the session lifetime and reads back unchanged; saving an already saved state changes nothing |
| RedisSessions.SaveStoresNothing | src/RedisSession.php:134-144 | as written: after `set('cart', …)` and `save()`, Redis still holds no record |
| RedisSessions.HasButDefault | src/RedisSession.php:94-97 | a key holding `null` is present for `has` but `get` yields the default (`??`) |
| RedisSessions.SavedStateNotReloaded | src/RedisSession.php:42-46 | even with the intended `save()`, a state saved by one session is not seen by the next session built on the same server |
| RedisSessions.SaveThenResume | src/RedisSession.php:134-144 | with `SaveRecord` and `Resume`, saving then resuming under the same id restores the state exactly |
| PdoSessions.ColumnValue | src/PdoSession.php:107-115 | a value bound to the text column comes back as itself exactly when it is null or a string (booleans, integers and arrays come back as other strings), and is null only when it was null |
| PdoSessions.RowsOf | src/PdoSession.php:93-105 | the name-to-value array of one session: a name is in it exactly when the table has row `(id, name)`, with that row's value |
| PdoSessions.WithoutSession | src/PdoSession.php:63-70 | `DELETE ... WHERE id = :id`: exactly the rows of other sessions remain |
| PdoSessions.Upsert | src/PdoSession.php:107-115 | `REPLACE INTO` of row `(id, key)` with the column value and expiry |
| PdoSessions.UpsertAll | src/PdoSession.php:117-128 | one `REPLACE INTO` per entry of the array, all with one expiry |
| PdoSessions.Refresh | src/PdoSession.php:155-167 | every row of the session rewritten with its own value and a new expiry |
| PdoSessions.UpsertAllStep | src/PdoSession.php:117-128 | one more `REPLACE INTO` after a batch is the batch with that entry added |
| PdoSessions.UpsertAllNext | src/PdoSession.php:117-128 | the loop in `setValues` writes one more entry per iteration |
| PdoSessions.WrittenStep | src/PdoSession.php:117-128 | the rows written for one more entry are the earlier rows plus that entry's row |
| PdoSessions.RowsOfUpsert | src/PdoSession.php:107-115 | one `REPLACE INTO` changes exactly one entry of one session's array |
| PdoSessions.RowsOfDeleteRow | src/PdoSession.php:140-146 | one row `DELETE` removes exactly one entry of one session's array |
| PdoSessions.RowsOfWithoutSession | src/PdoSession.php:148-153 | `DELETE ... WHERE id` empties that session's array and no other |
| PdoSessions.RowsOfUpsertAllSame | src/PdoSession.php:117-128 | writing a whole array merges its column values into the session's array |
| PdoSessions.RowsOfUpsertAllOther | src/PdoSession.php:117-128 | writing a whole array leaves every other session's array alone |
| PdoSessions.UpsertAllRows | src/PdoSession.php:117-128 | both of the above together |
| PdoSessions.RowsOfRefresh | src/PdoSession.php:155-167 | refreshing expiries changes no session's array |
| PdoSessions.RowsOfRefreshAll | src/PdoSession.php:155-167 | the same for all sessions at once |
| PdoSessions.RefreshedExceptNext | src/PdoSession.php:155-167 | the loop in `save` refreshes one more fetched row per iteration |
| PdoSessions.RefreshedExceptDone | src/PdoSession.php:155-167 | once every fetched row is rewritten, the table is the refreshed table |
| PdoSessions.RefreshIdempotent | src/PdoSession.php:155-167 | saving twice with the same clock is saving once |
| PdoSessions.PdoSession.constructor | src/PdoSession.php:24-34 | the id is empty and the session not started |
| PdoSessions.PdoSession.GetFlash | src/PdoSession.php:36-39 | always fails with the "not supported" error |
| PdoSessions.PdoSession.IsStarted | src/PdoSession.php:53-56 | the started flag |
| PdoSessions.PdoSession.Start | src/PdoSession.php:41-51 | as written: an id is issued when missing, then the first call fails on the undefined `load()` and the flag stays down |
| PdoSessions.PdoSession.StartWithoutLoad | src/PdoSession.php:41-51 | as intended: an id is issued when missing and the flag is raised |
| PdoSessions.PdoSession.RegenerateId | src/PdoSession.php:58-61 | the id becomes a new `sess_` id without dots; no row moves |
| PdoSessions.PdoSession.Destroy | src/PdoSession.php:63-70 | every row of the old id is deleted, other sessions keep theirs, and a new id is issued |
| PdoSessions.PdoSession.Get | src/PdoSession.php:82-91 | the session array's value for the key, or the default when there is no row |
| PdoSessions.PdoSession.All | src/PdoSession.php:93-105 | the fetch loop yields exactly the session's array, name to value |
| PdoSessions.PdoSession.Set | src/PdoSession.php:107-115 | exactly row `(id, key)` is written; `has`/`get` see the column value; no other session changes |
| PdoSessions.PdoSession.SetValues | src/PdoSession.php:117-128 | the loop merges the column values into the session's array and leaves other sessions alone |
| PdoSessions.PdoSession.Has | src/PdoSession.php:130-138 | true exactly when the session's array holds the key |
| PdoSessions.PdoSession.Delete | src/PdoSession.php:140-146 | exactly row `(id, key)` is deleted; `has` turns false; no other session changes |
| PdoSessions.PdoSession.Clear | src/PdoSession.php:148-153 | every row of the session is deleted, no other |
| PdoSessions.PdoSession.Save | src/PdoSession.php:155-167 | the loop gives each of the session's rows a new expiry and changes no session's array |
| MemcachedSessions.Lookup | src/MemcachedSession.php:89-93 | `get` of `id.key`: the entry's value on success, the default otherwise |
| MemcachedSessions.Present | src/MemcachedSession.php:111-115 | `has`: whether the `get` of `id.key` succeeds |
| MemcachedSessions.Blob | src/MemcachedSession.php:95-99 | `all()`: the array stored under the bare id when it is there and an array; any non-empty result is exactly that stored array |
| MemcachedSessions.PutKey | src/MemcachedSession.php:101-104 | `set` of `id.key` with the lifetime |
| MemcachedSessions.PutBlob | src/MemcachedSession.php:106-109 | `set` of the bare id to the array with the lifetime |
| MemcachedSessions.RemoveSession | src/MemcachedSession.php:122-125 | the intended `clear()`: every entry of the session goes, the blob and each `id.key` |
| MemcachedSessions.PutKeyGet | src/MemcachedSession.php:101-104 | after `set(key, v)`, `get(key)` yields `v` and `has(key)` holds |
| MemcachedSessions.PutKeyIsolated | src/MemcachedSession.php:101-104 | `set` of one key leaves every other key of every session unchanged |
| MemcachedSessions.PutKeyLeavesBlobs | src/MemcachedSession.php:95-99 | a value written by `set` never shows in any session's `all()` |
| MemcachedSessions.PutBlobKeys | src/MemcachedSession.php:106-109 | after `setValues(vs)`, `all()` is `vs` and every per-key `get`/`has` answers as before |
| MemcachedSessions.ClearKeepsPerKey | src/MemcachedSession.php:122-125 | as written: after `set(key, v)` and `clear()`, `has(key)` holds and `get(key)` yields `v`; only `all()` is empty |
| MemcachedSessions.RemoveSessionEmpties | src/MemcachedSession.php:122-125 | removing a whole session leaves neither its blob nor any of its keys |
| MemcachedSessions.RemoveSessionOthers | src/MemcachedSession.php:122-125 | removing a whole session leaves every other session's keys and blob alone |
| MemcachedSessions.SaveIdempotent | src/MemcachedSession.php:127-132 | a second `save()` with no change in between leaves the cache as the first did |
| MemcachedSessions.MemcachedSession.constructor | src/MemcachedSession.php:24-43 | the object's id stays empty and the session is not started |
| MemcachedSessions.MemcachedSession.GetFlash | src/MemcachedSession.php:45-48 | always fails with the "not supported" error |
| MemcachedSessions.MemcachedSession.IsStarted | src/MemcachedSession.php:62-65 | the started flag |
| MemcachedSessions.MemcachedSession.Get | src/MemcachedSession.php:89-93 | the value of entry `id.key` when `has(key)`, the default otherwise |
| MemcachedSessions.MemcachedSession.All | src/MemcachedSession.php:95-99 | the blob of the current id, as `Blob` gives it |
| MemcachedSessions.MemcachedSession.Has | src/MemcachedSession.php:111-115 | whether entry `id.key` is in the cache |
| MemcachedSessions.MemcachedSession.Start | src/MemcachedSession.php:50-60 | as written: an id is issued when missing, then the first call fails on the undefined `load()` and the flag stays down |
| MemcachedSessions.MemcachedSession.StartWithoutLoad | src/MemcachedSession.php:50-60 | as intended: an id is issued when missing and the flag is raised |
| MemcachedSessions.MemcachedSession.RegenerateId | src/MemcachedSession.php:67-70 | the id becomes a new `sess_` id without dots; the cache is untouched |
| MemcachedSessions.MemcachedSession.Destroy | src/MemcachedSession.php:72-77 | the old id's blob is deleted, its per-key entries stay, and a new id is issued |
| MemcachedSessions.MemcachedSession.Set | src/MemcachedSession.php:101-104 | entry `id.key` is written with the lifetime; `has`/`get` see it, `all()` does not change, no other key of any session changes |
| MemcachedSessions.MemcachedSession.SetValues | src/MemcachedSession.php:106-109 | the blob becomes `values`, so `all()` is `values`; per-key entries are untouched |
| MemcachedSessions.MemcachedSession.Delete | src/MemcachedSession.php:117-120 | entry `id.key` is deleted, `has` turns false, `all()` does not change |
| MemcachedSessions.MemcachedSession.Clear | src/MemcachedSession.php:122-125 | as written: only the blob is deleted, so `all()` is empty while every `has`/`get` answers as before |
| MemcachedSessions.MemcachedSession.ClearAll | src/MemcachedSession.php:122-125 | as intended: the blob and every `id.key` entry are deleted, so nothing of the session remains, and other sessions are unchanged |
| MemcachedSessions.MemcachedSession.Save | src/MemcachedSession.php:127-132 | `all()` is written back under the bare id and reads back unchanged |
| MemcachedSessions.ClearedKeyStays | src/MemcachedSession.php:122-125 | a session that sets `user` and then clears still has `user` |

## Left out

- Codecs: `json_encode`/`json_decode` and `serialize`/`unserialize` are taken to round-trip exactly, so the stores hold decoded state. A decode failure puts `null`/`false` into the typed `array` property and raises a `TypeError` (src/FilesystemSession.php:45, src/RedisSession.php:45-47, where the decoded value reaches `$this->storage`). That error path is not modelled.
- `uniqid()` and `time()` become parameters (`entropy`, `now`). Uniqueness of ids is not modelled.
- PdoSessions.PdoSession.SetValues: the source calls `time()` once per row; the model uses one `now` for the whole call.
- PdoSessions.PdoSession.Save: the same single `now` for the whole call.
- Expiry is recorded but never enforced: neither Redis/Memcached TTLs nor the `expiry` column make an entry vanish in the model.
- The `Flash` class and the `getFlash()` of the file-system and Redis adapters are not part of this model. The PDO and Memcached `getFlash()` failures are modelled.
- `getId()` and `getName()` are plain field reads and are not modelled as members.
- Cookie and PHP-session plumbing is not modelled: `$_COOKIE`, `Cookie::setcookie`, `session_id` and `session_set_save_handler`. Neither the PDO constructor (src/PdoSession.php:24-34) nor the Memcached constructor (src/MemcachedSession.php:24-43) ever assigns `$this->id`: the Memcached cookie id only reaches `session_id()`. The model's constructors therefore leave the id empty, so a PDO or Memcached session object never resumes an earlier id; `start()` always draws a fresh one.
- The undefined `prefix` option read by the Memcached constructor only feeds the cookie id, which is not modelled.
- The constructors take `name` and `lifetime` directly instead of merging an options array over the defaults. Backend connection setup and SQL statement text are not modelled.
- Session states are string-keyed. `array_merge` renumbering integer keys, and PHP's integer-like string keys, are not modelled.
- Concurrent requests on the same id are not modelled; there is no locking, so the last write wins.
- `regenerateId()` only assigns a new id (src/FilesystemSession.php:68-71, src/RedisSession.php:70-73, src/PdoSession.php:58-61, src/MemcachedSession.php:67-70); no adapter moves stored data to it, and the Redis `destroy()` (src/RedisSession.php:75-82) deletes nothing in Redis. The model does the same.
- Key validation of the Memcached client is not modelled: the cache is a map that accepts every key. The php-memcached client rejects an empty key, a key longer than 250 bytes and (on the text protocol) a key holding whitespace or control characters, and reports the failure through its result code instead of storing. So before `start()`, when the id is still empty, `setValues()` followed by `all()` yields an empty array in the source, and `set('user name', ...)` followed by `has('user name')` yields false; the model stores both.
- The Flysystem filesystem is taken with the overwrite semantics of its 2.x/3.x `write()` (a second write replaces the file) and a `delete()` that removes the file. Flysystem 1.x, whose `write()` throws when the file already exists, is not modelled.
- Value domain: `Value` covers null, booleans, integers, strings and nested string-keyed arrays. PHP floats, objects and resources are not modelled, nor are integer array keys.

## Findings

| source | as written | input that shows it | evidently intended | confidence | as-written member | corrected member |
|---|---|---|---|---|---|---|
| src/FilesystemSession.php:122-126 | `delete()` builds the path from `$$this`, which converts the object to a string and raises after the key was unset | `set('user', 'alice')`, then `delete('user')`: the state lacks `user`, the file still holds it | the same path as `set()`, so the removal is written through | not executed | FilesystemSessions.FilesystemSession.Delete | FilesystemSessions.FilesystemSession.DeleteWriteThrough |
| src/PdoSession.php:41-51 | `start()` calls `$this->load()`, which the class does not declare | any first `start()` throws, and `isStarted()` stays false | starting issues a missing id and raises the flag | not executed | PdoSessions.PdoSession.Start | PdoSessions.PdoSession.StartWithoutLoad |
| src/MemcachedSession.php:50-60 | `start()` calls `$this->load()`, which the class does not declare | any first `start()` throws, and `isStarted()` stays false | starting issues a missing id and raises the flag | not executed | MemcachedSessions.MemcachedSession.Start | MemcachedSessions.MemcachedSession.StartWithoutLoad |
| src/RedisSession.php:42-46 | the constructor looks the state up under `getId()` while the id is still empty | session A saves `cart` under its id; session B, built next on the same server, starts empty (key `""`) | the state is loaded from the id the session resumes | not executed | RedisSessions.SavedStateNotReloaded | RedisSessions.RedisSession.Resume |
| src/MemcachedSession.php:122-125 | `clear()` deletes only the bare-id blob, while `set()` writes to `id.key` | `set('user', 'alice')`, then `clear()`: `has('user')` is still true | `clear()` removes every value of the session | not executed | MemcachedSessions.ClearKeepsPerKey | MemcachedSessions.MemcachedSession.ClearAll |
| src/FilesystemSession.php:38-46 | the constructor always issues a fresh id (the id is still empty at that point) and then looks for the file of that new id | one session sets `cart` and its file holds it; a second session built on the same file system starts empty | a session resumes the file of the id it is given | not executed | FilesystemSessions.FileNotReloaded | FilesystemSessions.FilesystemSession.Resume |
| src/RedisSession.php:134-144 | `save()` passes a fourth argument (the prefix option) to `setex`, which takes three; the call throws, or on older PHP versions fails, so nothing is stored | `set('cart', 3)`, then `save()`: Redis holds no record | the three-argument `setex(id, lifetime, data)` stores the state | not executed; depends on the arity of the Redis extension's `setex` | RedisSessions.SaveStoresNothing | RedisSessions.RedisSession.SaveRecord |
