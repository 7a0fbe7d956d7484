/** The helpers of utils.go: the string key under which a link is stored,
    and `min` over capacities. */
module Utils {
  import opened Wrappers
  import opened Decimal

  /** newLinkKey: the decimal form of `r1`, a '-', then the decimal form of `r2`. */
  function NewLinkKey(r1: int, r2: int): string {
    Itoa(r1) + "-" + Itoa(r2)
  }

  /** Index of the first '-' in `k` at or after position `from`. */
  function SeparatorFrom(k: string, from: nat): (r: Option<nat>)
    ensures r.Some? ==> from <= r.value < |k| && k[r.value] == '-'
    ensures r.Some? ==> forall j :: from <= j < r.value ==> k[j] != '-'
    ensures r.None? ==> forall j :: from <= j < |k| ==> k[j] != '-'
    decreases |k| - from
  {
    if from >= |k| then None
    else if k[from] == '-' then Some(from)
    else SeparatorFrom(k, from + 1)
  }

  /** Splits a link key back into its ordered pair of router IDs. The
      separator is the first '-' after position 0, since a '-' at
      position 0 is the sign of the first ID. */
  function ParseLinkKey(k: string): Option<(int, int)> {
    match SeparatorFrom(k, 1)
    case None => None
    case Some(i) =>
      match (ParseInt(k[..i]), ParseInt(k[i + 1..]))
      case (Some(a), Some(b)) => Some((a, b))
      case _ => None
  }

  /** Splitting a key at its separator recovers the pair it was built from. */
  lemma LinkKeyRoundTrip(r1: int, r2: int)
    ensures ParseLinkKey(NewLinkKey(r1, r2)) == Some((r1, r2))
  {
    var a, b := Itoa(r1), Itoa(r2);
    var k := NewLinkKey(r1, r2);
    assert forall j :: 1 <= j < |a| ==> k[j] == a[j];
    assert k[|a|] == '-';
    assert k[..|a|] == a;
    assert k[|a| + 1..] == b;
    ItoaRoundTrip(r1);
    ItoaRoundTrip(r2);
  }

  /** Distinct ordered pairs get distinct keys. */
  lemma LinkKeyInjective(a: int, b: int, c: int, d: int)
    ensures NewLinkKey(a, b) == NewLinkKey(c, d) <==> a == c && b == d
  {
    LinkKeyRoundTrip(a, b);
    LinkKeyRoundTrip(c, d);
  }

  /** The key is oriented: the two directions of a link between distinct
      routers are stored under different keys. */
  lemma LinkKeyOriented(a: int, b: int)
    ensures NewLinkKey(a, b) == NewLinkKey(b, a) <==> a == b
  {
    LinkKeyInjective(a, b, b, a);
  }

  /** min over capacities: the first argument when it is strictly smaller,
      otherwise the second. */
  function Min(n1: int, n2: int): (m: int)
    ensures m <= n1 && m <= n2
    ensures m == n1 || m == n2
  {
    if n1 < n2 then n1 else n2
  }

  /** The value of `Min` does not depend on argument order, and `Min(x, x) == x`. */
  lemma MinCommutativeIdempotent(x: int, y: int)
    ensures Min(x, y) == Min(y, x)
    ensures Min(x, x) == x
  {
  }
}
