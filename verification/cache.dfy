/** The expiring key-value cache in front of the store (a Redis instance):
    string keys, values with an absolute expiry time, and the key format
    `banner:<feature>:<tag>`. Times are milliseconds. */
module Cache {
  import opened Basics
  import opened Decimal
  import opened Models

  /** Five minutes, the expiration passed with every write. */
  const Ttl: nat := 5 * 60 * 1000

  datatype Entry = Entry(value: Json, expiresAt: nat)

  type KeyValue = map<string, Entry>

  /** An entry answers reads up to and including its expiry instant. */
  predicate Live(c: KeyValue, key: string, now: nat)
  {
    key in c && now <= c[key].expiresAt
  }

  /** What a `GET` on the cache reports. A transport failure is `ReadError`. */
  datatype ReadResult = Hit(value: Json) | Miss | ReadError

  /** `GET key`; `fails` stands for a transport failure of the cache. */
  function Get(c: KeyValue, key: string, now: nat, fails: bool): (r: ReadResult)
    ensures r.Hit? <==> !fails && Live(c, key, now)
    ensures r.Hit? ==> r.value == c[key].value
    ensures r.ReadError? <==> fails
  {
    if fails then ReadError
    else if Live(c, key, now) then Hit(c[key].value)
    else Miss
  }

  /** `SET key value` with the five-minute expiration; a failed write leaves the cache as it was. */
  function Set(c: KeyValue, key: string, value: Json, now: nat, fails: bool): (c': KeyValue)
    ensures fails ==> c' == c
    ensures !fails ==> key in c' && c'[key] == Entry(value, now + Ttl)
    ensures c'.Keys <= c.Keys + {key}
    ensures forall k | k in c && k != key :: k in c' && c'[k] == c[k]
  {
    if fails then c else c[key := Entry(value, now + Ttl)]
  }

  /** The cache key of a (feature, tag) pair: `fmt.Sprintf("banner:%d:%d", f, t)`. */
  function Key(f: int, t: int): string
  {
    "banner:" + IntToString(f) + ":" + IntToString(t)
  }

  /** The index of the first occurrence of `c` in `s`, if any. */
  function IndexOf(s: string, c: char): (r: Option<nat>)
    ensures r.Some? ==> r.value < |s| && s[r.value] == c && c !in s[..r.value]
    ensures r.None? ==> c !in s
    decreases |s|
  {
    if |s| == 0 then None
    else if s[0] == c then Some(0)
    else match IndexOf(s[1..], c)
      case None => None
      case Some(i) => assert s[..i + 1] == [s[0]] + s[1..][..i]; Some(i + 1)
  }

  /** The first occurrence of a character the prefix lacks is right after the prefix. */
  lemma {:induction false} IndexOfAfter(a: string, c: char, b: string)
    requires c !in a
    ensures IndexOf(a + [c] + b, c) == Some(|a|)
    decreases |a|
  {
    if |a| > 0 {
      assert (a + [c] + b)[1..] == a[1..] + [c] + b;
      IndexOfAfter(a[1..], c, b);
    }
  }

  /** Reads a key back into its (feature, tag) pair; anything not written by `Key` is rejected. */
  function ParseKey(k: string): Option<(int, int)>
  {
    if |k| < 7 || k[..7] != "banner:" then None
    else
      var rest := k[7..];
      match IndexOf(rest, ':')
      case None => None
      case Some(c) =>
        match (ParseInt(rest[..c]), ParseInt(rest[c + 1..]))
        case (Some(f), Some(t)) => Some((f, t))
        case _ => None
  }

  /** Parsing a key gives back the pair it was built from. */
  lemma KeyRoundTrip(f: int, t: int)
    ensures ParseKey(Key(f, t)) == Some((f, t))
  {
    var k := Key(f, t);
    var a := IntToString(f);
    var b := IntToString(t);
    assert k[..7] == "banner:";
    var rest := k[7..];
    assert rest == a + ":" + b;
    assert forall j | 0 <= j < |a| :: a[j] != ':';
    assert ':' !in a;
    IndexOfAfter(a, ':', b);
    assert rest == a + [':'] + b;
    assert IndexOf(rest, ':') == Some(|a|);
    assert rest[..|a|] == a;
    assert rest[|a| + 1..] == b;
    IntRoundTrip(f);
    IntRoundTrip(t);
  }

  /** Distinct (feature, tag) pairs never share a cache entry. */
  lemma KeyInjective(f1: int, t1: int, f2: int, t2: int)
    ensures Key(f1, t1) == Key(f2, t2) <==> f1 == f2 && t1 == t2
  {
    KeyRoundTrip(f1, t1);
    KeyRoundTrip(f2, t2);
  }
}
