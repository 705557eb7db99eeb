/** The URL result cache kept in extension-local storage (utils/storage.ts):
    results live under the key `url_` followed by the URL, next to whatever
    other keys the extension stores. The storage area is a string-keyed map;
    its values are left generic because the cache never looks inside them. */
module UrlCache {
  import opened JsText
  import opened Wrappers

  const Prefix: string := "url_"

  /** The storage key of a URL's cached result. */
  function CacheKey(url: string): string {
    Prefix + url
  }

  /** A cache key is the prefix followed by the URL, so the URL can be read
      back from it. */
  lemma CacheKeyShape(url: string)
    ensures StartsWith(CacheKey(url), Prefix)
    ensures CacheKey(url)[|Prefix|..] == url
  {
  }

  /** Prefixing is injective: two URLs never share a cache entry. */
  lemma CacheKeyInjective(a: string, b: string)
    ensures CacheKey(a) == CacheKey(b) <==> a == b
  {
    CacheKeyShape(a);
    CacheKeyShape(b);
  }

  lemma CacheKeysDistinct()
    ensures forall a, b :: CacheKey(a) == CacheKey(b) ==> a == b
  {
    forall a, b | CacheKey(a) == CacheKey(b) ensures a == b {
      CacheKeyInjective(a, b);
    }
  }

  /** `getCachedResult`: the stored value, or null when the key is absent. */
  function GetCachedResult<V>(store: map<string, V>, url: string): (r: Option<V>)
    ensures r.None? <==> CacheKey(url) !in store
    ensures r.Some? ==> r.value == store[CacheKey(url)]
  {
    if CacheKey(url) in store then Some(store[CacheKey(url)]) else None
  }

  /** `setCachedResult`: one key is written, every other key keeps its value. */
  function SetCachedResult<V>(store: map<string, V>, url: string, v: V): (s: map<string, V>)
    ensures s.Keys == store.Keys + {CacheKey(url)}
    ensures forall k :: k in store && k != CacheKey(url) ==> s[k] == store[k]
  {
    store[CacheKey(url) := v]
  }

  lemma GetAfterSet<V>(store: map<string, V>, url: string, v: V)
    ensures GetCachedResult(SetCachedResult(store, url, v), url) == Some(v)
  {
  }

  /** Writing one URL's result does not change what any other URL reads. */
  lemma SetLeavesOtherUrls<V>(store: map<string, V>, a: string, b: string, v: V)
    requires a != b
    ensures GetCachedResult(SetCachedResult(store, a, v), b) == GetCachedResult(store, b)
  {
    CacheKeyInjective(a, b);
  }

  /** `clearUrlCache`: the keys starting with `url_` go, the others stay with
      their values. */
  function ClearUrlCache<V>(store: map<string, V>): (s: map<string, V>)
    ensures forall k :: k in s <==> k in store && !StartsWith(k, Prefix)
    ensures forall k :: k in s ==> s[k] == store[k]
  {
    map k | k in store && !StartsWith(k, Prefix) :: store[k]
  }

  /** After a clear no URL has a cached result. */
  lemma ClearForgetsEveryUrl<V>(store: map<string, V>, url: string)
    ensures GetCachedResult(ClearUrlCache(store), url) == None
  {
    CacheKeyShape(url);
  }

  lemma ClearIdempotent<V>(store: map<string, V>)
    ensures ClearUrlCache(ClearUrlCache(store)) == ClearUrlCache(store)
  {
  }

  /** With no `url_` key present, a clear changes nothing. */
  lemma ClearWithoutUrlKeys<V>(store: map<string, V>)
    requires forall k :: k in store ==> !StartsWith(k, Prefix)
    ensures ClearUrlCache(store) == store
  {
  }

  /** A clear does not touch what is stored under other keys. */
  lemma ClearKeepsOtherKeys<V>(store: map<string, V>, k: string)
    requires k in store && !StartsWith(k, Prefix)
    ensures k in ClearUrlCache(store) && ClearUrlCache(store)[k] == store[k]
  {
  }
}
