/** The text keys under which the browser's replica indexes its nodes. */
module NodeKeys {
  import opened Ids

  function Digit(d: nat): char
    requires d < 10
  {
    '0' + d as char
  }

  function Decimal(n: nat): (s: string)
    ensures s != "" && ':' !in s
  {
    if n < 10 then [Digit(n)] else Decimal(n / 10) + [Digit(n % 10)]
  }

  /** `siteId:timestamp`. */
  function NodeKey(id: NodeId): string
  {
    id.site + ":" + Decimal(id.timestamp)
  }

  lemma {:induction false} DecimalInjective(m: nat, n: nat)
    requires Decimal(m) == Decimal(n)
    ensures m == n
  {
    var s, t := Decimal(m), Decimal(n);
    assert s[|s| - 1] == Digit(m % 10) && t[|t| - 1] == Digit(n % 10);
    if m >= 10 && n >= 10 {
      assert s[..|s| - 1] == Decimal(m / 10) && t[..|t| - 1] == Decimal(n / 10);
      DecimalInjective(m / 10, n / 10);
    }
  }

  lemma NoLaterColon(k: string, p: nat, q: nat)
    requires p < |k| && q < |k| && ':' !in k[p + 1..] && k[q] == ':'
    ensures q <= p
  {
    forall i | p < i < |k|
      ensures k[i] != ':'
    {
      assert k[i] == k[p + 1..][i - p - 1];
    }
  }

  /** The last colon separates the two parts, so keys of distinct ids are distinct. */
  lemma NodeKeyInjective(a: NodeId, b: NodeId)
    requires NodeKey(a) == NodeKey(b)
    ensures a == b
  {
    var k := NodeKey(a);
    var p, q := |a.site|, |b.site|;
    assert k[p] == ':' && k[p + 1..] == Decimal(a.timestamp);
    assert k == b.site + ":" + Decimal(b.timestamp);
    assert k[q] == ':' && k[q + 1..] == Decimal(b.timestamp);
    NoLaterColon(k, p, q);
    NoLaterColon(k, q, p);
    assert a.site == k[..p] && b.site == k[..q];
    DecimalInjective(a.timestamp, b.timestamp);
  }
}
