/** The text of cache keys (internal/infra/persistence/cached_repository.go, getCacheKey). */
module CacheKeys {
  import opened Domain

  function Digit(d: nat): char
    requires d < 10
  {
    ('0' as int + d) as char
  }

  function Decimal(n: nat): string {
    if n < 10 then [Digit(n)] else Decimal(n / 10) + [Digit(n % 10)]
  }

  /** strconv.Itoa. */
  function Itoa(n: int): string {
    if n < 0 then "-" + Decimal(-n) else Decimal(n)
  }

  function CacheKey(id: KeyId, version: int): string {
    if version == 0 then id + ":latest" else id + ":v" + Itoa(version)
  }

  function Value(s: string): int {
    if s == [] then 0 else 10 * Value(s[..|s| - 1]) + (s[|s| - 1] as int - '0' as int)
  }

  lemma {:induction false} DecimalValue(n: nat)
    ensures Decimal(n) != [] && '0' <= Decimal(n)[0] <= '9' && Value(Decimal(n)) == n
  {
    if n < 10 {
      assert [Digit(n)][..0] == [];
    } else {
      DecimalValue(n / 10);
      assert Decimal(n)[..|Decimal(n)| - 1] == Decimal(n / 10);
    }
  }

  lemma ItoaInjective(m: int, n: int)
    requires Itoa(m) == Itoa(n)
    ensures m == n
  {
    DecimalValue(if m < 0 then -m else m);
    DecimalValue(if n < 0 then -n else n);
    assert m < 0 ==> Itoa(m)[1..] == Decimal(-m);
    assert n < 0 ==> Itoa(n)[1..] == Decimal(-n);
  }

  /** Different (id, version) pairs never share a cache key: a hit is for the key and version asked
      for.  Ids are 36 characters long, and no version is written "latest". */
  lemma CacheKeyInjective(a: KeyId, v: int, b: KeyId, w: int)
    requires CacheKey(a, v) == CacheKey(b, w)
    ensures a == b && v == w
  {
    var s := CacheKey(a, v);
    assert s[..36] == a && s[..36] == b;
    if v == 0 || w == 0 {
      assert s[37] == if v == 0 then 'l' else 'v';
      assert s[37] == if w == 0 then 'l' else 'v';
    } else {
      assert s[38..] == Itoa(v) && s[38..] == Itoa(w);
      ItoaInjective(v, w);
    }
  }

  lemma {:induction false} DecimalIsDigits(n: nat)
    ensures forall i :: 0 <= i < |Decimal(n)| ==> '0' <= Decimal(n)[i] <= '9'
    ensures n > 0 ==> Decimal(n)[0] != '0'
  {
    if n >= 10 { DecimalIsDigits(n / 10); DecimalValue(n / 10); }
  }

  /** The text: the id, a colon, and "latest" or "v" with the version in decimal, without leading zeros. */
  lemma CacheKeyText(id: KeyId, version: nat)
    ensures CacheKey(id, 0) == id + ":latest"
    ensures version > 0 ==>
      var ck := CacheKey(id, version);
      && |ck| > 38 && ck[..38] == id + ":v" && ck[38] != '0' && Value(ck[38..]) == version
      && forall i :: 38 <= i < |ck| ==> '0' <= ck[i] <= '9'
  {
    if version > 0 {
      DecimalValue(version);
      DecimalIsDigits(version);
      assert CacheKey(id, version)[38..] == Decimal(version);
    }
  }
}
