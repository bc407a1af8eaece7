/** The query string of a request, as the client builds it with
    `URLSearchParams`: an ordered list of name/value pairs.  `Set` has the
    semantics of `URLSearchParams.set` (replace the first pair with that name
    and drop the others, or append when there is none) and `Lookup` those of
    `URLSearchParams.get` (the first value with that name).  Percent-encoding
    is not modelled.  Also the decimal rendering of an integer, which is how
    the page number reaches the query. */
module SearchParams {
  import opened Wrappers

  type Query = seq<(string, string)>

  /** The names of the pairs, as a set. */
  function Names(q: Query): set<string> {
    if q == [] then {} else {q[0].0} + Names(q[1..])
  }

  lemma {:induction false} NamesAppend(a: Query, b: Query)
    ensures Names(a + b) == Names(a) + Names(b)
  {
    if a == [] {
      assert a + b == b;
    } else {
      NamesAppend(a[1..], b);
      assert (a + b)[1..] == a[1..] + b;
    }
  }

  /** `searchParams.get(k)`: the value of the first pair named `k`. */
  function Lookup(q: Query, k: string): (r: Option<string>)
    ensures r.None? <==> k !in Names(q)
  {
    if q == [] then None
    else if q[0].0 == k then Some(q[0].1)
    else Lookup(q[1..], k)
  }

  /** Every pair not named `k`, in order. */
  function RemoveAll(q: Query, k: string): (r: Query)
    ensures Names(r) == Names(q) - {k}
  {
    if q == [] then []
    else if q[0].0 == k then RemoveAll(q[1..], k)
    else [q[0]] + RemoveAll(q[1..], k)
  }

  /** `searchParams.set(k, v)`. */
  function Set(q: Query, k: string, v: string): Query {
    if q == [] then [(k, v)]
    else if q[0].0 == k then [(k, v)] + RemoveAll(q[1..], k)
    else [q[0]] + Set(q[1..], k, v)
  }

  lemma {:induction false} RemoveAllLookup(q: Query, k: string, k': string)
    ensures Lookup(RemoveAll(q, k), k') == if k' == k then None else Lookup(q, k')
  {
    if q != [] {
      RemoveAllLookup(q[1..], k, k');
    }
  }

  lemma {:induction false} RemoveAllIdempotent(q: Query, k: string)
    ensures RemoveAll(RemoveAll(q, k), k) == RemoveAll(q, k)
  {
    if q != [] {
      RemoveAllIdempotent(q[1..], k);
      if q[0].0 != k {
        assert RemoveAll(q, k) == [q[0]] + RemoveAll(q[1..], k);
        assert RemoveAll(q, k)[1..] == RemoveAll(q[1..], k);
      }
    }
  }

  /** After `set(k, v)`, `get(k)` is `v` and every other name reads as before. */
  lemma {:induction false} SetLookup(q: Query, k: string, v: string, k': string)
    ensures Lookup(Set(q, k, v), k') == if k' == k then Some(v) else Lookup(q, k')
  {
    if q != [] {
      if q[0].0 == k {
        RemoveAllLookup(q[1..], k, k');
      } else {
        SetLookup(q[1..], k, v, k');
      }
    }
  }

  /** A second `set` of the same name overwrites the first one completely. */
  lemma {:induction false} SetSet(q: Query, k: string, a: string, b: string)
    ensures Set(Set(q, k, a), k, b) == Set(q, k, b)
  {
    if q != [] {
      if q[0].0 == k {
        RemoveAllIdempotent(q[1..], k);
      } else {
        SetSet(q[1..], k, a, b);
      }
    }
  }

  /** Setting a name not yet present appends the pair at the end. */
  lemma {:induction false} SetAppendsNew(q: Query, k: string, v: string)
    requires k !in Names(q)
    ensures Set(q, k, v) == q + [(k, v)]
  {
    if q != [] {
      assert q[0].0 in Names(q);
      SetAppendsNew(q[1..], k, v);
      assert q == [q[0]] + q[1..];
    }
  }

  /** Setting a name already present replaces its first pair where it stands
      and drops the later pairs with that name; the pairs before it and the
      other pairs after it keep their order. */
  lemma {:induction false} SetInPlace(q: Query, k: string, v: string, i: int)
    requires 0 <= i < |q| && q[i].0 == k && k !in Names(q[..i])
    ensures Set(q, k, v) == q[..i] + [(k, v)] + RemoveAll(q[i+1..], k)
  {
    if i == 0 {
      assert q[..0] == [];
    } else {
      assert q[0].0 in Names(q[..i]);
      assert q[1..][..i-1] == q[..i][1..];
      assert Names(q[1..][..i-1]) <= Names(q[..i]);
      SetInPlace(q[1..], k, v, i - 1);
      assert q[1..][i..] == q[i+1..];
      assert q[..i] == [q[0]] + q[1..][..i-1];
    }
  }

  // ---------------------------------------------------------------------
  // Integer to decimal string (`Number.prototype.toString` on integers)

  function DigitChar(d: nat): (c: char)
    requires d < 10
    ensures '0' <= c <= '9' && c as int - '0' as int == d
  {
    ('0' as int + d) as char
  }

  predicate IsDigits(s: string) {
    s != [] && forall i :: 0 <= i < |s| ==> '0' <= s[i] <= '9'
  }

  function NatToString(n: nat): (s: string)
    ensures IsDigits(s)
    decreases n
  {
    if n < 10 then [DigitChar(n)] else NatToString(n / 10) + [DigitChar(n % 10)]
  }

  function IntToString(i: int): (s: string)
    ensures s != []
  {
    if i < 0 then "-" + NatToString(-i) else NatToString(i)
  }

  /** The value of a string of decimal digits. */
  function DigitsValue(s: string): nat
    requires forall i :: 0 <= i < |s| ==> '0' <= s[i] <= '9'
  {
    if s == [] then 0 else DigitsValue(s[..|s| - 1]) * 10 + (s[|s| - 1] as int - '0' as int)
  }

  /** Reads back what `IntToString` writes. */
  function ParseInt(s: string): Option<int> {
    if |s| > 1 && s[0] == '-' && IsDigits(s[1..]) then Some(-(DigitsValue(s[1..]) as int))
    else if IsDigits(s) then Some(DigitsValue(s))
    else None
  }

  lemma {:induction false} NatToStringValue(n: nat)
    ensures DigitsValue(NatToString(n)) == n
  {
    if n >= 10 {
      NatToStringValue(n / 10);
      var s := NatToString(n);
      assert s[..|s| - 1] == NatToString(n / 10);
    }
  }

  /** The page number sent in the query can be read back exactly. */
  lemma IntToStringRoundTrip(i: int)
    ensures ParseInt(IntToString(i)) == Some(i)
  {
    if i < 0 {
      NatToStringValue(-i);
      assert IntToString(i)[1..] == NatToString(-i);
    } else {
      NatToStringValue(i);
    }
  }

  /** So two different page numbers are never rendered alike. */
  lemma IntToStringInjective(i: int, j: int)
    requires i != j
    ensures IntToString(i) != IntToString(j)
  {
    IntToStringRoundTrip(i);
    IntToStringRoundTrip(j);
  }
}
