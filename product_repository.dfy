/**
 * The `findByNameOrDescriptionAndPrice` query: three optional clauses joined
 * by AND.  A null argument switches its clause off.  The text clause lower-cases
 * the stored name and description (ASCII letters only) but not the query, and
 * treats the query as a plain substring.
 */
module ProductRepository {
  import opened Wrappers
  import opened Products

  predicate IsUpper(c: char) {
    'A' <= c <= 'Z'
  }

  function LowerChar(c: char): (l: char)
    ensures !IsUpper(l)
    ensures !IsUpper(c) ==> l == c
  {
    if IsUpper(c) then (c as int + 32) as char else c
  }

  /** SQL `lower`, on ASCII letters. */
  function Lower(s: string): (l: string)
    ensures |l| == |s|
    ensures forall i :: 0 <= i < |s| ==> l[i] == LowerChar(s[i])
  {
    seq(|s|, i requires 0 <= i < |s| => LowerChar(s[i]))
  }

  /** `s LIKE %q%`: `q` occurs in `s` at some offset (checked from the left). */
  predicate Contains(s: string, q: string)
    decreases |s|
  {
    (|q| <= |s| && s[..|q|] == q) || (|s| > 0 && Contains(s[1..], q))
  }

  /** The substring relation stated directly, by the offset of the match. */
  predicate OccursAt(s: string, q: string, k: int) {
    0 <= k && k + |q| <= |s| && s[k..k + |q|] == q
  }

  lemma {:induction false} ContainsIff(s: string, q: string)
    ensures Contains(s, q) <==> exists k :: OccursAt(s, q, k)
    decreases |s|
  {
    if |q| <= |s| && s[..|q|] == q {
      assert OccursAt(s, q, 0);
    }
    if |s| > 0 {
      ContainsIff(s[1..], q);
      if exists k :: OccursAt(s[1..], q, k) {
        var k :| OccursAt(s[1..], q, k);
        assert s[k + 1..k + 1 + |q|] == s[1..][k..k + |q|];
        assert OccursAt(s, q, k + 1);
      }
      if exists k :: OccursAt(s, q, k) {
        var k :| OccursAt(s, q, k);
        if k > 0 {
          assert s[1..][k - 1..k - 1 + |q|] == s[k..k + |q|];
          assert OccursAt(s[1..], q, k - 1);
        }
      }
    } else {
      if exists k :: OccursAt(s, q, k) {
        var k :| OccursAt(s, q, k);
        assert |q| == 0;
      }
    }
  }

  /** `(:query IS NULL OR lower(name) LIKE %:query% OR lower(description) LIKE %:query%)` */
  predicate TextClause(p: Product, query: Option<string>) {
    query.None? || Contains(Lower(p.name), query.value) || Contains(Lower(p.description), query.value)
  }

  /** `(:minPrice IS NULL OR price >= :minPrice)` */
  predicate MinClause(p: Product, minPrice: Option<real>) {
    minPrice.None? || p.price >= minPrice.value
  }

  /** `(:maxPrice IS NULL OR price <= :maxPrice)` */
  predicate MaxClause(p: Product, maxPrice: Option<real>) {
    maxPrice.None? || p.price <= maxPrice.value
  }

  predicate Matches(p: Product, query: Option<string>, minPrice: Option<real>, maxPrice: Option<real>) {
    TextClause(p, query) && MinClause(p, minPrice) && MaxClause(p, maxPrice)
  }

  /** The stored products that match, in the order they are stored. */
  function FindByNameOrDescriptionAndPrice(ps: seq<Product>, query: Option<string>, minPrice: Option<real>,
                                          maxPrice: Option<real>): (r: seq<Product>)
    ensures |r| <= |ps|
    ensures forall p :: p in r ==> p in ps && Matches(p, query, minPrice, maxPrice)
  {
    if ps == [] then []
    else
      var rest := FindByNameOrDescriptionAndPrice(ps[1..], query, minPrice, maxPrice);
      if Matches(ps[0], query, minPrice, maxPrice) then [ps[0]] + rest else rest
  }

  /** `a` is `b` with some elements dropped, the rest in their order. */
  predicate IsSubsequence<T(==)>(a: seq<T>, b: seq<T>)
    decreases |b|
  {
    if a == [] then true
    else if b == [] then false
    else if a[0] == b[0] then IsSubsequence(a[1..], b[1..])
    else IsSubsequence(a, b[1..])
  }

  /** Every stored product that matches is returned, and nothing else. */
  lemma {:induction false} FindExactly(ps: seq<Product>, query: Option<string>, minPrice: Option<real>,
                                      maxPrice: Option<real>, p: Product)
    ensures p in FindByNameOrDescriptionAndPrice(ps, query, minPrice, maxPrice)
        <==> p in ps && Matches(p, query, minPrice, maxPrice)
  {
    if ps != [] {
      FindExactly(ps[1..], query, minPrice, maxPrice, p);
      assert ps == [ps[0]] + ps[1..];
    }
  }

  /** The result keeps the store's order: it is a subsequence of all products. */
  lemma {:induction false} FindIsSubsequence(ps: seq<Product>, query: Option<string>, minPrice: Option<real>,
                                            maxPrice: Option<real>)
    ensures IsSubsequence(FindByNameOrDescriptionAndPrice(ps, query, minPrice, maxPrice), ps)
  {
    if ps != [] {
      FindIsSubsequence(ps[1..], query, minPrice, maxPrice);
      var rest := FindByNameOrDescriptionAndPrice(ps[1..], query, minPrice, maxPrice);
      assert ps == [ps[0]] + ps[1..];
      if !Matches(ps[0], query, minPrice, maxPrice) {
        SkipHead(rest, ps[1..], ps[0]);
      } else {
        assert ([ps[0]] + rest)[1..] == rest;
      }
    }
  }

  /** Putting an element in front keeps a subsequence a subsequence. */
  lemma {:induction false} SkipHead<T>(a: seq<T>, b: seq<T>, x: T)
    requires IsSubsequence(a, b)
    ensures IsSubsequence(a, [x] + b)
    decreases |b|, 1
  {
    assert ([x] + b)[1..] == b;
    if a != [] && a[0] == x {
      DropFirst(a, b);
    }
  }

  lemma {:induction false} DropFirst<T>(a: seq<T>, b: seq<T>)
    requires a != [] && IsSubsequence(a, b)
    ensures IsSubsequence(a[1..], b)
    decreases |b|, 0
  {
    assert b == [b[0]] + b[1..];
    if a[0] == b[0] {
      SkipHead(a[1..], b[1..], b[0]);
    } else {
      DropFirst(a, b[1..]);
      SkipHead(a[1..], b[1..], b[0]);
    }
  }

  /** With every argument null, every stored product is returned. */
  lemma {:induction false} AllNullFindsAll(ps: seq<Product>)
    ensures FindByNameOrDescriptionAndPrice(ps, None, None, None) == ps
  {
    if ps != [] {
      AllNullFindsAll(ps[1..]);
    }
  }

  /** A query holding an upper-case letter never matches through the text clause. */
  lemma UpperQueryNeverMatches(s: string, q: string, j: int)
    requires 0 <= j < |q| && IsUpper(q[j])
    ensures !Contains(Lower(s), q)
  {
    ContainsIff(Lower(s), q);
  }

  lemma UpperQueryFailsTextClause(p: Product, q: string, j: int)
    requires 0 <= j < |q| && IsUpper(q[j])
    ensures !TextClause(p, Some(q))
  {
    UpperQueryNeverMatches(p.name, q, j);
    UpperQueryNeverMatches(p.description, q, j);
  }

  /** A string without the first letter of the query cannot contain the query. */
  lemma MissingFirstChar(s: string, q: string)
    requires |q| > 0 && q[0] !in s
    ensures !Contains(s, q)
  {
  }

  /** A lower-cased string holds 'i' only if the original held 'i' or 'I'. */
  lemma LowerHasLetter(s: string, c: char)
    requires 'a' <= c <= 'z'
    requires c in Lower(s)
    ensures c in s || (c as int - 32) as char in s
  {
  }

  lemma MonitorMatches()
    ensures Matches(Product(Some(1), "Monitor", "Monitor IPS de 27 Polegadas", 960.0), Some("ips"), Some(0.0), Some(999.0))
  {
    var d := Lower("Monitor IPS de 27 Polegadas");
    assert d[8..11] == "ips";
    assert OccursAt(d, "ips", 8);
    ContainsIff(d, "ips");
  }

  lemma NoLetterI(s: string)
    requires 'i' !in s && 'I' !in s
    ensures !Contains(Lower(s), "ips")
  {
    if 'i' in Lower(s) {
      LowerHasLetter(s, 'i');
    }
    MissingFirstChar(Lower(s), "ips");
  }

  lemma BoardDoesNotMatch()
    ensures !TextClause(Product(Some(2), "Placa mãe Maxsun B650M", "Plataforma AM5", 750.0), Some("ips"))
  {
    NoLetterI("Placa mãe Maxsun B650M");
    NoLetterI("Plataforma AM5");
  }

  /** The repository test's search: only the monitor matches "ips" within [0, 999]. */
  lemma MonitorSearchExample()
    ensures FindByNameOrDescriptionAndPrice(
              [Product(Some(1), "Monitor", "Monitor IPS de 27 Polegadas", 960.0),
               Product(Some(2), "Placa mãe Maxsun B650M", "Plataforma AM5", 750.0)],
              Some("ips"), Some(0.0), Some(999.0))
         == [Product(Some(1), "Monitor", "Monitor IPS de 27 Polegadas", 960.0)]
  {
    MonitorMatches();
    BoardDoesNotMatch();
  }
}
