# SavouraBot chat relay — reply resolution

A Dafny model of how the SavouraBot backend answers one `POST /api/chat`
request. The handler normalises the message into a cache key
(`message.strip().lower()`) and looks the key up in a process-wide cache of
`(reply, timestamp)` pairs. An entry younger than one hour is returned
straight away. Otherwise the handler calls the remote language model. A
successful call stores the new reply under the key. A failed call (any
exception) falls back to an ordered keyword table, where the first keyword
that occurs in the key wins. With no matching keyword, the handler returns
a fixed generic recipe.

Modules:

- `Text` (`text.dfy`): Python's `str.strip()`, ASCII `str.lower()` and the
  substring test `k in s`. It also holds the facts that make two messages
  share a cache key.
- `Fallback` (`fallback.dfy`): the keyword table, its first-match search as
  a function, and the handler's `for` loop as a method proved against it.
- `Relay` (`relay.dfy`): the cache as a class `ChatRelay` whose `Chat`
  method updates a `map` field, and the pure function `Resolve`. `Resolve`
  specifies one request. The lemmas state the cache rules in terms of it.

Inputs that the source gets from its environment are parameters here:

- `now` is the clock reading of the freshness test (`datetime.now()` on
  main.py:77).
- `doneAt` is the clock reading stored with a remote reply (the second
  `datetime.now()`, on main.py:87).
- `remote` is what the remote call would do: `Success(text)` or `Failure`.
  `Chat` also returns `calledRemote`, which says whether the call was made.
- Times are integers in microseconds, the resolution of `datetime`. The TTL
  `timedelta(hours=1)` is `CacheTtl = 3_600_000_000`.

This revision of main.py has no empty-input check, no `prompt` alias field
and no classification of remote errors: every exception goes to the keyword
fallback (main.py:91).

## Model

| member | source | states |
|---|---|---|
| `Text.Lower` | main.py:72 | `lower()` keeps the length and lower-cases each character in place |
| `Text.StripUnique` | main.py:72 | `strip()` returns exactly the part between the leading and the trailing whitespace, for any split point that describes it |
| `Text.StripExists` | main.py:72 | every message has such a split, and `strip()` returns that part |
| `Text.NormalizeIdempotent` | main.py:72 | normalising a cache key again gives the same key |
| `Text.NormalizePadding` | main.py:72 | whitespace added around a message does not change its cache key |
| `Text.NormalizeIgnoresCase` | main.py:72 | messages that agree after lower-casing have the same cache key |
| `Text.ContainsMeans` | main.py:93 | `keyword in key` holds exactly when the keyword occurs at some position of the key |
| `Fallback.FirstMatchFrom` | main.py:92-94 | returns the first table position at or after the start whose keyword occurs in the key, with no earlier match, or `None` when no keyword matches |
| `Fallback.KeywordFallback` | main.py:92-106 | the loop with early return gives the first-match reply, or the generic reply after the loop |
| `Fallback.FirstMatchWins` | main.py:92-94 | if keyword `i` occurs and no earlier keyword does, the reply is the answer of keyword `i`, whatever later keywords match |
| `Fallback.NoMatchGeneric` | main.py:97-106 | with no keyword in the key, the reply is the generic recipe |
| `Fallback.FallbackReplyNonEmpty` | main.py:31-38 | every failure-path reply is non-empty and is a table answer or the generic recipe |
| `Fallback.RiceBeforeChicken` | main.py:36-37 | a key containing both `riz` and `poulet`, and none of the four keywords before them, gets the `riz` answer |
| `Fallback.RiceBeforeChickenWithoutCOrJ` | main.py:32-37 | a key containing `riz` and `poulet` with neither a `c` nor a `j` gets the `riz` answer, because each of the four earlier keywords contains a `c` or a `j` |
| `Relay.ChatRelay.constructor` | main.py:25 | the cache starts empty |
| `Relay.ChatRelay.Chat` | main.py:71-106 | reply, remote-call flag and new cache are those of `Resolve` on the old cache; cache keys stay normalised |
| `Relay.CacheHit` | main.py:75-78 | a fresh entry gives its stored reply, no remote call, and an unchanged cache |
| `Relay.StrictTtl` | main.py:77 | an entry aged the TTL or more is a miss; the remote call is made, and on failure the stale entry is not removed |
| `Relay.MissCallsRemote` | main.py:75-82 | a missing or stale entry leads to the remote call |
| `Relay.RemoteSuccess` | main.py:86-88 | the reply is the remote text; its key now maps to `(text, doneAt)`; no other entry changes |
| `Relay.RemoteFailure` | main.py:91-106 | the cache is unchanged, and the reply is the non-empty fallback for the key |
| `Relay.EntriesNeverRemoved` | main.py:75-88 | no request removes an entry; only the request's own key can gain or change one |
| `Relay.KeysStayNormalized` | main.py:87 | if every cache key is normalised before a request, so is every key after it |
| `Relay.SharedEntry` | main.py:72-75 | messages differing only in surrounding whitespace and letter case get the same answer and the same cache update |
| `Relay.RepeatWithinTtl` | main.py:75-88 | after a stored remote reply, the same key asked less than a TTL later gets that reply without a remote call |
| `Relay.RetryAfterTtl` | main.py:77-82 | once the stored reply is a TTL old, the same key calls the remote model again |

## Left out

- FastAPI app, CORS middleware, the `/` status route and pydantic parsing (main.py:43-65) are framework plumbing.
- `load_dotenv`, reading `GOOGLE_API_KEY` and the start-up `ValueError` (main.py:10-17) are process-environment I/O.
- The Gemini client (main.py:19-20, 82-86) is a foreign network call, modelled only by its outcome `RemoteResult`. The prompt it is sent is built from the raw message and matters only to the remote service.
- `datetime.now()` is replaced by the integer parameters `now` and `doneAt`; the model does not assume any order between them.
- Concurrent requests sharing the global cache are host-framework concurrency and are not modelled.
- Text.Lower: maps only the ASCII letters `A`–`Z`; Python's full Unicode lower-casing (for example `É` to `é`) is not modelled.
- `Text.IsSpace` follows the whitespace set of Python's `str.isspace()`, listed character by character.
