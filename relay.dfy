/** The `/api/chat` handler: a process-wide reply cache with a one-hour
    time-to-live, in front of a remote model call whose failures fall back to
    the keyword table. The clock readings and the outcome of the remote call
    are parameters. */
module Relay {
  import opened Text
  import opened Fallback

  /** `timedelta(hours=1)` counted in microseconds, the resolution of
      `datetime`. Every time below is in the same unit. */
  const CacheTtl: int := 3_600_000_000

  /** A cached reply and the time at which it was stored. */
  datatype Entry = Entry(reply: string, storedAt: int)

  /** What the remote model call does when it is made: it returns a text or
      raises. */
  datatype RemoteResult = Success(text: string) | Failure

  /** The outcome of one request: the reply, whether the remote model was
      called, and the cache afterwards. */
  datatype Answer = Answer(reply: string, calledRemote: bool, cache: map<string, Entry>)

  /** An entry is fresh while its age is strictly less than the TTL. */
  predicate Fresh(e: Entry, now: int) {
    now - e.storedAt < CacheTtl
  }

  /** The cache answers `key` at time `now`. */
  predicate IsHit(cache: map<string, Entry>, key: string, now: int) {
    key in cache && Fresh(cache[key], now)
  }

  /** One request, as a function of the cache before it. `now` is the clock
      reading of the freshness test and `doneAt` the one taken when a remote
      reply is stored. */
  function Resolve(cache: map<string, Entry>, message: string, now: int, doneAt: int,
                   remote: RemoteResult): Answer
  {
    var key := Normalize(message);
    if IsHit(cache, key, now) then
      Answer(cache[key].reply, false, cache)
    else
      match remote
      case Success(text) => Answer(text, true, cache[key := Entry(text, doneAt)])
      case Failure => Answer(FallbackReply(key), true, cache)
  }

  /** Every key of the cache is a normalised message. */
  ghost predicate KeysNormalized(cache: map<string, Entry>) {
    forall k :: k in cache ==> Normalize(k) == k
  }

  /** The handler's module state: the cache dictionary. */
  class ChatRelay {
    var cache: map<string, Entry>

    ghost predicate Valid()
      reads this
    {
      KeysNormalized(cache)
    }

    /** The cache starts empty when the process starts. */
    constructor ()
      ensures Valid() && cache == map[]
    {
      cache := map[];
    }

    /** Handles one chat message. */
    method Chat(message: string, now: int, doneAt: int, remote: RemoteResult)
      returns (reply: string, calledRemote: bool)
      requires Valid()
      modifies this
      ensures Valid()
      ensures Answer(reply, calledRemote, cache) == Resolve(old(cache), message, now, doneAt, remote)
    {
      var key := Normalize(message);
      NormalizeIdempotent(message);
      if key in cache {
        var Entry(cachedReply, cachedTime) := cache[key];
        if now - cachedTime < CacheTtl {
          return cachedReply, false;
        }
      }
      match remote {
        case Success(text) =>
          cache := cache[key := Entry(text, doneAt)];
          return text, true;
        case Failure =>
          reply := KeywordFallback(key);
          return reply, true;
      }
    }
  }

  /** A fresh entry answers the request: its reply is returned, the remote
      model is not called and the cache is unchanged. */
  lemma CacheHit(cache: map<string, Entry>, message: string, now: int, doneAt: int,
                 remote: RemoteResult)
    requires Normalize(message) in cache
    requires now - cache[Normalize(message)].storedAt < CacheTtl
    ensures Resolve(cache, message, now, doneAt, remote)
            == Answer(cache[Normalize(message)].reply, false, cache)
  {
  }

  /** An entry whose age is the TTL or more is a miss: the remote model is
      called, and on failure the stale entry stays where it was. */
  lemma StrictTtl(cache: map<string, Entry>, message: string, now: int, doneAt: int,
                  remote: RemoteResult)
    requires Normalize(message) in cache
    requires now - cache[Normalize(message)].storedAt >= CacheTtl
    ensures Resolve(cache, message, now, doneAt, remote).calledRemote
    ensures remote.Failure? ==>
              Resolve(cache, message, now, doneAt, remote).cache[Normalize(message)]
              == cache[Normalize(message)]
  {
  }

  /** On a miss the remote model is called. */
  lemma MissCallsRemote(cache: map<string, Entry>, message: string, now: int, doneAt: int,
                        remote: RemoteResult)
    requires !IsHit(cache, Normalize(message), now)
    ensures Resolve(cache, message, now, doneAt, remote).calledRemote
  {
  }

  /** A successful remote call on a miss returns its text and stores it with
      the time `doneAt` under the key; every other entry is kept as it was. */
  lemma RemoteSuccess(cache: map<string, Entry>, message: string, now: int, doneAt: int,
                      text: string)
    requires !IsHit(cache, Normalize(message), now)
    ensures var a := Resolve(cache, message, now, doneAt, Success(text));
            a.reply == text && a.calledRemote &&
            a.cache.Keys == cache.Keys + {Normalize(message)} &&
            a.cache[Normalize(message)] == Entry(text, doneAt) &&
            forall k :: k in cache && k != Normalize(message) ==> a.cache[k] == cache[k]
  {
  }

  /** A failing remote call on a miss leaves the cache alone and answers with
      a non-empty offline reply chosen from the key alone. */
  lemma RemoteFailure(cache: map<string, Entry>, message: string, now: int, doneAt: int)
    requires !IsHit(cache, Normalize(message), now)
    ensures var a := Resolve(cache, message, now, doneAt, Failure);
            a.cache == cache && a.calledRemote &&
            a.reply == FallbackReply(Normalize(message)) && a.reply != []
  {
  }

  /** Entries are never removed, and only the entry of the request's key can
      change. */
  lemma EntriesNeverRemoved(cache: map<string, Entry>, message: string, now: int, doneAt: int,
                            remote: RemoteResult)
    ensures var a := Resolve(cache, message, now, doneAt, remote);
            cache.Keys <= a.cache.Keys <= cache.Keys + {Normalize(message)} &&
            forall k :: k in cache && k != Normalize(message) ==> a.cache[k] == cache[k]
  {
  }

  /** The cache only ever holds normalised messages as keys. */
  lemma KeysStayNormalized(cache: map<string, Entry>, message: string, now: int, doneAt: int,
                           remote: RemoteResult)
    requires KeysNormalized(cache)
    ensures KeysNormalized(Resolve(cache, message, now, doneAt, remote).cache)
  {
    NormalizeIdempotent(message);
  }

  /** Messages that differ only in surrounding whitespace and in the case of
      their letters are answered alike: they share one cache entry. */
  lemma SharedEntry(cache: map<string, Entry>, p: string, s: string, q: string, t: string,
                    now: int, doneAt: int, remote: RemoteResult)
    requires AllSpace(p) && AllSpace(q)
    requires |s| == |t| && forall k :: 0 <= k < |s| ==> ToLower(s[k]) == ToLower(t[k])
    ensures Normalize(p + s + q) == Normalize(t)
    ensures Resolve(cache, p + s + q, now, doneAt, remote) == Resolve(cache, t, now, doneAt, remote)
  {
    NormalizePadding(p, s, q);
    NormalizeIgnoresCase(s, t);
  }

  /** After a remote reply is stored, a request with the same key made less
      than a TTL later gets the same reply without calling the remote model,
      whatever the remote model would have done. */
  lemma RepeatWithinTtl(cache: map<string, Entry>, first: string, now1: int, doneAt1: int,
                        text: string, second: string, now2: int, doneAt2: int,
                        remote2: RemoteResult)
    requires !IsHit(cache, Normalize(first), now1)
    requires Normalize(second) == Normalize(first)
    requires now2 - doneAt1 < CacheTtl
    ensures var a1 := Resolve(cache, first, now1, doneAt1, Success(text));
            Resolve(a1.cache, second, now2, doneAt2, remote2) == Answer(text, false, a1.cache)
  {
  }

  /** Once the stored reply is a TTL old or more, the same key calls the
      remote model again. */
  lemma RetryAfterTtl(cache: map<string, Entry>, first: string, now1: int, doneAt1: int,
                      text: string, second: string, now2: int, doneAt2: int,
                      remote2: RemoteResult)
    requires !IsHit(cache, Normalize(first), now1)
    requires Normalize(second) == Normalize(first)
    requires now2 - doneAt1 >= CacheTtl
    ensures var a1 := Resolve(cache, first, now1, doneAt1, Success(text));
            Resolve(a1.cache, second, now2, doneAt2, remote2).calledRemote
  {
  }
}
