/** Redis as the backend uses it, and the cache wrapper that fails open around it. */
module Cache {
  import opened Contract

  /** What is stored under a string key: an encoded value, or bytes that do not decode. */
  datatype Raw<+V> = Encoded(value: V) | Garbage

  datatype Entry<+V> = Entry(raw: Raw<V>, expires: nat)

  /** The server: its clock in milliseconds, and the keys of each kind. */
  datatype Redis<V> = Redis(
    now: nat,
    strings: map<string, Entry<V>>,
    counters: map<string, nat>,
    lists: map<string, seq<V>>)

  datatype Fetched<+V> = Missing | Found(value: V) | DecodeError

  /** A key can be read strictly before its expiry. */
  predicate Live<V>(r: Redis<V>, key: string) {
    key in r.strings && r.now < r.strings[key].expires
  }

  function Lookup<V>(r: Redis<V>, key: string): Fetched<V> {
    if !Live(r, key) then Missing
    else match r.strings[key].raw
      case Encoded(v) => Found(v)
      case Garbage => DecodeError
  }

  /** SET with an expiry in seconds; Redis refuses one that is not positive. */
  function Put<V>(r: Redis<V>, key: string, v: V, ttl: int): Redis<V> {
    if ttl <= 0 then r
    else r.(strings := r.strings[key := Entry(Encoded(v), r.now + 1000 * ttl)])
  }

  function Drop<V>(r: Redis<V>, key: string): Redis<V> {
    r.(strings := r.strings - {key})
  }

  function CountOf<V>(r: Redis<V>, key: string): nat {
    if key in r.counters then r.counters[key] else 0
  }

  function Bump<V>(r: Redis<V>, key: string): Redis<V> {
    r.(counters := r.counters[key := CountOf(r, key) + 1])
  }

  function ListOf<V>(r: Redis<V>, key: string): seq<V> {
    if key in r.lists then r.lists[key] else []
  }

  function Newest<T>(s: seq<T>, cap: nat): seq<T> {
    if |s| <= cap then s else s[..cap]
  }

  /** LPUSH and LTRIM in one transaction. */
  function Push<V>(r: Redis<V>, key: string, v: V, cap: nat): Redis<V> {
    r.(lists := r.lists[key := Newest([v] + ListOf(r, key), cap)])
  }

  /** Every operation is told whether the server carried it out (`up`); if not, the client's error is
      swallowed. A write whose acknowledgement is lost is carried out all the same. */
  class JsonCache<V> {
    var redis: Redis<V>

    constructor (redis: Redis<V>)
      ensures this.redis == redis
    {
      this.redis := redis;
    }

    method Get(key: string, up: bool) returns (r: Fetched<V>)
      ensures r == if up then Lookup(redis, key) else Missing
    {
      if !up || key !in redis.strings || redis.strings[key].expires <= redis.now {
        return Missing;
      }
      match redis.strings[key].raw {
        case Encoded(v) => return Found(v);
        case Garbage => return DecodeError;
      }
    }

    method Set(key: string, value: V, ttlSeconds: int, up: bool)
      modifies this
      ensures redis == if up then Put(old(redis), key, value, ttlSeconds) else old(redis)
      ensures up && ttlSeconds > 0 ==> Lookup(redis, key) == Found(value)
      ensures forall k | k != key :: Lookup(redis, k) == Lookup(old(redis), k)
    {
      if up && ttlSeconds > 0 {
        redis := redis.(strings := redis.strings[key := Entry(Encoded(value), redis.now + 1000 * ttlSeconds)]);
      }
    }

    method Delete(key: string, up: bool)
      modifies this
      ensures redis == if up then Drop(old(redis), key) else old(redis)
      ensures up ==> Lookup(redis, key) == Missing
      ensures forall k | k != key :: Lookup(redis, k) == Lookup(old(redis), k)
    {
      if up {
        redis := redis.(strings := redis.strings - {key});
      }
    }

    method Incr(key: string, up: bool)
      modifies this
      ensures redis == if up then Bump(old(redis), key) else old(redis)
      ensures CountOf(redis, key) == CountOf(old(redis), key) + (if up then 1 else 0)
      ensures forall k | k != key :: CountOf(redis, k) == CountOf(old(redis), k)
    {
      if up {
        redis := redis.(counters := redis.counters[key := CountOf(redis, key) + 1]);
      }
    }

    method GetInt(key: string, up: bool) returns (n: nat)
      ensures n == if up then CountOf(redis, key) else 0
    {
      n := 0;
      if up && key in redis.counters {
        n := redis.counters[key];
      }
    }

    method PushCapped(key: string, value: V, cap: nat, up: bool)
      requires cap >= 1
      modifies this
      ensures redis == if up then Push(old(redis), key, value, cap) else old(redis)
      ensures up ==> |ListOf(redis, key)| <= cap && ListOf(redis, key)[0] == value
      ensures forall k | k != key :: ListOf(redis, k) == ListOf(old(redis), k)
    {
      if up {
        var list := [value] + ListOf(redis, key);
        if |list| > cap {
          list := list[..cap];
        }
        redis := redis.(lists := redis.lists[key := list]);
      }
    }

    method ListRecent(key: string, cap: nat, up: bool) returns (items: seq<V>)
      requires cap >= 1
      ensures items == if up then Newest(ListOf(redis, key), cap) else []
    {
      items := [];
      if up {
        items := Newest(ListOf(redis, key), cap);
      }
    }
  }

  /** A stored value is found until its lifetime is over and never after, whatever happens to other keys. */
  lemma FoundUntilExpiry<V>(r: Redis<V>, key: string, v: V, ttl: int, later: Redis<V>)
    requires ttl > 0 && r.now <= later.now
    requires key in later.strings && later.strings[key] == Put(r, key, v, ttl).strings[key]
    ensures Lookup(later, key) == if later.now < r.now + 1000 * ttl then Found(v) else Missing
  {
  }

  function Reversed<T>(s: seq<T>): (r: seq<T>)
    ensures |r| == |s| && forall i | 0 <= i < |s| :: r[i] == s[|s| - 1 - i]
  {
    seq(|s|, i requires 0 <= i < |s| => s[|s| - 1 - i])
  }

  /** A capped list holding the newest `cap` of everything pushed so far still does after one more push:
      trimming on every push never drops an item that will be asked for. */
  lemma PushKeepsNewest<V>(r: Redis<V>, key: string, log: seq<V>, v: V, cap: nat)
    requires cap >= 1 && ListOf(r, key) == Newest(Reversed(log), cap)
    ensures ListOf(Push(r, key, v, cap), key) == Newest(Reversed(log + [v]), cap)
  {
    var a, b := [v] + Newest(Reversed(log), cap), Reversed(log + [v]);
    assert b == [v] + Reversed(log);
  }
}
