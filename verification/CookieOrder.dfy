/** The order of cookies' sort keys: domain, then path, then name. */
module CookieOrder {
  import opened StringOrder
  import opened StableSort

  type CookieKey = (string, string, string)

  predicate KeyLe(a: CookieKey, b: CookieKey) {
    if a.0 != b.0 then Le(a.0, b.0) else if a.1 != b.1 then Le(a.1, b.1) else Le(a.2, b.2)
  }

  lemma LeIsTotalOrder()
    ensures TotalOrder(Le)
  {
    forall a ensures Le(a, a) { LeReflexive(a); }
    forall a, b ensures Le(a, b) || Le(b, a) { LeTotal(a, b); }
    forall a, b | Le(a, b) && Le(b, a) ensures a == b { LeAntisymmetric(a, b); }
    forall a, b, c | Le(a, b) && Le(b, c) ensures Le(a, c) { LeTransitive(a, b, c); }
  }

  lemma KeyLeIsTotalOrder()
    ensures TotalOrder(KeyLe)
  {
    forall a ensures KeyLe(a, a) { LeReflexive(a.2); }
    forall a, b ensures KeyLe(a, b) || KeyLe(b, a) { KeyLeTotal(a, b); }
    forall a, b | KeyLe(a, b) && KeyLe(b, a) ensures a == b { KeyLeAntisymmetric(a, b); }
    forall a, b, c | KeyLe(a, b) && KeyLe(b, c) ensures KeyLe(a, c) { KeyLeTransitive(a, b, c); }
  }

  lemma KeyLeTotal(a: CookieKey, b: CookieKey)
    ensures KeyLe(a, b) || KeyLe(b, a)
  {
    LeTotal(a.0, b.0);
    LeTotal(a.1, b.1);
    LeTotal(a.2, b.2);
  }

  lemma KeyLeAntisymmetric(a: CookieKey, b: CookieKey)
    requires KeyLe(a, b) && KeyLe(b, a)
    ensures a == b
  {
    if a.0 != b.0 { LeAntisymmetric(a.0, b.0); }
    else if a.1 != b.1 { LeAntisymmetric(a.1, b.1); }
    else { LeAntisymmetric(a.2, b.2); }
  }

  lemma KeyLeTransitive(a: CookieKey, b: CookieKey, c: CookieKey)
    requires KeyLe(a, b) && KeyLe(b, c)
    ensures KeyLe(a, c)
  {
    if a.0 != b.0 && b.0 != c.0 {
      LeTransitive(a.0, b.0, c.0);
      if a.0 == c.0 { LeAntisymmetric(a.0, b.0); }
    } else if a.0 == b.0 && b.0 == c.0 {
      if a.1 != b.1 && b.1 != c.1 {
        LeTransitive(a.1, b.1, c.1);
        if a.1 == c.1 { LeAntisymmetric(a.1, b.1); }
      } else if a.1 == b.1 && b.1 == c.1 {
        LeTransitive(a.2, b.2, c.2);
      }
    }
  }
}
