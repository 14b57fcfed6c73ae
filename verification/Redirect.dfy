/** Redirects: what a visitor of a short link is told, decided on a record that may come from the cache. */
module Redirect {
  import opened Links
  import opened Repository
  import opened CachedRepository

  /** `Error` is counted when the lookup throws; the exception goes on to the caller. */
  datatype Redirect = Success(url: string) | NotFound | Disabled | Expired | Error

  /** Clock readings are in milliseconds, expiry in whole seconds. */
  predicate IsExpired(r: LinkRecord, now: int) {
    r.expiresAt.Some? && r.expiresAt.value <= now / 1000
  }

  /** A record is expired from the millisecond on in which its second begins; the cache keeps it exactly until then. */
  lemma ExpiryIs(r: LinkRecord, now: int, ttl: int)
    requires ttl > 0
    ensures IsExpired(r, now) <==> r.expiresAt.Some? && r.expiresAt.value * 1000 <= now
    ensures IsExpired(r, now) <==> KeepSeconds(r, now, ttl) <= 0
  {
  }

  /** An unchanged record that has expired stays expired. */
  lemma ExpiredForGood(r: LinkRecord, now: int, later: int)
    requires now <= later && IsExpired(r, now)
    ensures IsExpired(r, later)
  {
    ExpiryIs(r, now, 1);
    ExpiryIs(r, later, 1);
  }

  class ShortLinkService {
    const repository: RedisCachedShortLinkRepository
    var counted: multiset<Redirect>

    constructor (repository: RedisCachedShortLinkRepository)
      ensures this.repository == repository && counted == multiset{}
    {
      this.repository := repository;
      counted := multiset{};
    }

    /**
     On a coherent cache the decision is the one the source's own record demands, whichever
     Redis calls fail, and the lookup leaves the cache coherent. A source that throws is an
     error only if the cache has no answer. Each outcome is counted once.
     */
    method Resolve(code: string, now: int, read: ReadFate, write: WriteFate, sourceFails: bool) returns (r: Redirect)
      requires repository.cache.ttlSeconds > 0
      requires Coherent(repository.Value()) && Inv(repository.source.Value()) && Storable(repository.source.Value())
      modifies repository.cache, this`counted
      ensures r.Error? <==> sourceFails && Fetch(old(repository.cache.entries), code, now, read).record.None?
      ensures !r.Error? ==> (r.NotFound? <==> code !in repository.source.links)
      ensures !r.Error? && code in repository.source.links ==>
                var record := repository.source.links[code];
                && (r.Disabled? <==> record.status.Disabled?)
                && (r.Expired? <==> record.status.Active? && record.expiresAt.Some? && record.expiresAt.value * 1000 <= now)
                && (forall ttl: int | ttl > 0 ::
                      r.Success? <==> record.status.Active? && KeepSeconds(record, now, ttl) > 0)
                && (r.Success? ==> r.url == record.originalUrl)
      ensures Coherent(repository.Value())
      ensures counted == old(counted) + multiset{r}
    {
      hide Coherent, Inv, Storable, Fetch, Fill, Step, KeepSeconds, IsExpired;
      FindKeepsCoherent(repository.Value(), Find(code, now, read, write), repository.cache.ttlSeconds);
      FetchKeepsCoherent(repository.Value(), code, now, read);
      var record, threw := repository.FindByCode(code, now, read, write, sourceFails);
      if threw {
        r := Redirect.Error;
      } else if record.None? {
        r := NotFound;
      } else if record.value.status.Disabled? {
        r := Redirect.Disabled;
      } else if IsExpired(record.value, now) {
        r := Expired;
      } else {
        r := Success(record.value.originalUrl);
      }
      counted := counted + multiset{r};
      if record.Some? {
        forall ttl: int | ttl > 0 ensures IsExpired(record.value, now) <==> KeepSeconds(record.value, now, ttl) <= 0 {
          ExpiryIs(record.value, now, ttl);
        }
        ExpiryIs(record.value, now, 1);
      }
    }
  }
}
