/**
 * The provider map: a registry holding at most one record per provider type,
 * kept in ascending order of type identifier so that two maps built from the
 * same providers hold the same identifiers in the same order, whatever order
 * the providers came in.
 */
module ProviderMaps {
  import opened Identifiers
  import opened Providers

  /** `LLBProviderMapError`. */
  datatype ProviderMapError =
    | MultipleProviders(id: Identifier)
    | ProviderTypeNotFound(id: Identifier)

  /** A value, or the error the Swift code throws. */
  datatype Result<T> = Success(value: T) | Failure(error: ProviderMapError)

  /** `LLBProviderMap`: the stored records, in the order construction left them. */
  datatype ProviderMap = ProviderMap(providers: seq<AnyCodable>)

  /**
   * `count`: the number of stored records. It is zero exactly when `get`
   * finds nothing, whatever type is asked for.
   */
  function Count(m: ProviderMap): (n: nat)
    ensures n == 0 <==> forall id :: Lookup(m, id).Failure?
  {
    assert |m.providers| > 0 ==> Lookup(m, m.providers[0].typeIdentifier).Success?;
    |m.providers|
  }

  /**
   * What `init(providers:)` produces, stated without its loop: sort the
   * providers by type identifier; if two neighbours in that order share an
   * identifier, fail with the first such identifier, otherwise store the
   * wrapped providers in that order.
   */
  function Construct(ps: seq<Provider>): (r: Result<ProviderMap>)
    ensures r.Failure? ==> r.error.MultipleProviders?
  {
    var sorted := SortById(ps);
    match FirstAdjacentDuplicate(Ids(sorted))
    case Some(id) => Failure(MultipleProviders(id))
    case None => Success(ProviderMap(WrapAll(sorted)))
  }

  /**
   * `init(providers:)`: scans the sorted providers, appending a record for
   * each and throwing as soon as a provider has the identifier of the record
   * appended last.
   */
  method Build(ps: seq<Provider>) returns (r: Result<ProviderMap>)
    ensures r == Construct(ps)
    ensures r.Failure? <==> exists i, j | 0 <= i < j < |ps| :: ps[i].id == ps[j].id
    ensures r.Success? ==> StrictlySorted(TypeIdentifiers(r.value.providers))
    ensures r.Success? ==> Count(r.value) == |ps|
  {
    var sorted := SortById(ps);
    var validProviders: seq<AnyCodable> := [];
    var i := 0;
    while i < |sorted|
      invariant 0 <= i <= |sorted|
      invariant validProviders == WrapAll(sorted[..i])
      invariant AdjacentDistinct(Ids(sorted), i)
    {
      var provider := sorted[i];
      if |validProviders| > 0 && validProviders[|validProviders| - 1].typeIdentifier == provider.id {
        FirstAdjacentDuplicateAt(Ids(sorted), i);
        r := Failure(MultipleProviders(provider.id));
        assert r == Construct(ps);
        ConstructOutcome(ps);
        return;
      }
      validProviders := validProviders + [Wrap(provider)];
      i := i + 1;
    }
    assert sorted[..i] == sorted;
    r := Success(ProviderMap(validProviders));
    assert r == Construct(ps);
    ConstructOutcome(ps);
  }

  /** What `Build` promises beyond its outcome, gathered from the lemmas below. */
  lemma ConstructOutcome(ps: seq<Provider>)
    ensures Construct(ps).Failure? <==> exists i, j | 0 <= i < j < |ps| :: ps[i].id == ps[j].id
    ensures Construct(ps).Success? ==> StrictlySorted(TypeIdentifiers(Construct(ps).value.providers))
    ensures Construct(ps).Success? ==> Count(Construct(ps).value) == |ps|
  {
    ConstructFailsIffDuplicate(ps);
    if Construct(ps).Success? {
      ConstructIsStrictlySorted(ps, Construct(ps).value);
      ConstructKeepsEveryProvider(ps, Construct(ps).value);
    }
  }

  /**
   * The position of the first record with the given type identifier, or the
   * number of records when there is none.
   */
  function FirstIndexOf(records: seq<AnyCodable>, id: Identifier): (k: nat)
    ensures k <= |records|
    ensures forall j | 0 <= j < k :: records[j].typeIdentifier != id
    ensures k < |records| ==> records[k].typeIdentifier == id
    decreases |records|
  {
    if |records| == 0 then 0
    else if records[0].typeIdentifier == id then 0
    else 1 + FirstIndexOf(records[1..], id)
  }

  /**
   * What `get` returns for the provider type with identifier `id`: the
   * decoding of the first record with that identifier, or
   * `providerTypeNotFound(id)` when no record has it.
   */
  function Lookup(m: ProviderMap, id: Identifier): (r: Result<Provider>)
    ensures r.Failure? <==> forall j | 0 <= j < |m.providers| :: m.providers[j].typeIdentifier != id
    ensures r.Failure? ==> r.error == ProviderTypeNotFound(id)
    ensures r.Success? ==> exists k | 0 <= k < |m.providers| ::
      && m.providers[k].typeIdentifier == id
      && r.value == Decode(id, m.providers[k].serializedCodable)
      && forall j | 0 <= j < k :: m.providers[j].typeIdentifier != id
  {
    var k := FirstIndexOf(m.providers, id);
    if k < |m.providers| then Success(Decode(id, m.providers[k].serializedCodable))
    else Failure(ProviderTypeNotFound(id))
  }

  /** `get<P>`: a front-to-back search that returns at the first match. */
  method Get(m: ProviderMap, id: Identifier) returns (r: Result<Provider>)
    ensures r == Lookup(m, id)
  {
    var i := 0;
    while i < |m.providers|
      invariant 0 <= i <= |m.providers|
      invariant forall j | 0 <= j < i :: m.providers[j].typeIdentifier != id
    {
      var anyProvider := m.providers[i];
      if anyProvider.typeIdentifier == id {
        return Success(Decode(id, anyProvider.serializedCodable));
      }
      i := i + 1;
    }
    return Failure(ProviderTypeNotFound(id));
  }

  // Properties of construction.

  /** A built map holds its records in strictly ascending identifier order. */
  lemma ConstructIsStrictlySorted(ps: seq<Provider>, m: ProviderMap)
    requires Construct(ps) == Success(m)
    ensures StrictlySorted(TypeIdentifiers(m.providers))
    ensures forall i, j | 0 <= i < j < |m.providers| ::
      m.providers[i].typeIdentifier != m.providers[j].typeIdentifier
  {
    var sorted := SortById(ps);
    WrapAllIds(sorted);
    StrictFromAdjacent(Ids(sorted), |sorted|);
    forall i, j | 0 <= i < j < |m.providers|
      ensures m.providers[i].typeIdentifier != m.providers[j].typeIdentifier
    {
      LessIrreflexive(m.providers[i].typeIdentifier);
      assert TypeIdentifiers(m.providers)[i] == m.providers[i].typeIdentifier;
      assert TypeIdentifiers(m.providers)[j] == m.providers[j].typeIdentifier;
    }
  }

  /**
   * Construction fails exactly when two of the given providers have the same
   * type identifier, and then only with `multipleProviders`.
   */
  lemma ConstructFailsIffDuplicate(ps: seq<Provider>)
    ensures Construct(ps).Failure? <==>
      exists i, j | 0 <= i < j < |ps| :: ps[i].id == ps[j].id
  {
    var sorted := SortById(ps);
    IdsPermutation(sorted, ps);
    DuplicatePermutation(Ids(sorted), Ids(ps));
    SortedDuplicateIsAdjacent(Ids(sorted));
    if exists i, j | 0 <= i < j < |ps| :: ps[i].id == ps[j].id {
      var i, j :| 0 <= i < j < |ps| && ps[i].id == ps[j].id;
      assert Ids(ps)[i] == Ids(ps)[j];
    }
    if HasDuplicate(Ids(ps)) {
      var i, j :| 0 <= i < j < |Ids(ps)| && Ids(ps)[i] == Ids(ps)[j];
      assert ps[i].id == ps[j].id;
    }
  }

  /**
   * The identifier a failed construction reports is shared by two of the given
   * providers, and it is the least identifier that is: the first duplicate in
   * sorted order.
   */
  lemma ConstructReportsLeastDuplicate(ps: seq<Provider>, d: Identifier)
    requires Construct(ps) == Failure(MultipleProviders(d))
    ensures exists i, j | 0 <= i < j < |ps| :: ps[i].id == d && ps[j].id == d
    ensures forall i, j | 0 <= i < j < |ps| && ps[i].id == ps[j].id :: LessEq(d, ps[i].id)
  {
    var sorted := SortById(ps);
    var t := Ids(sorted);
    IdsPermutation(sorted, ps);
    var k :| 0 < k < |t| && t[k - 1] == d && t[k] == d && AdjacentDistinct(t, k);
    TwiceGivesCount(t, k - 1, k);
    CountGivesTwice(Ids(ps), d);
    var i0, j0 :| 0 <= i0 < j0 < |ps| && Ids(ps)[i0] == d && Ids(ps)[j0] == d;
    assert ps[i0].id == d && ps[j0].id == d;
    forall i, j | 0 <= i < j < |ps| && ps[i].id == ps[j].id ensures LessEq(d, ps[i].id) {
      var x := ps[i].id;
      TwiceGivesCount(Ids(ps), i, j);
      CountGivesTwice(t, x);
      var a, b :| 0 <= a < b < |t| && t[a] == x && t[b] == x;
      LessTotal(d, x);
      if Less(x, d) {
        // Every position at or after k holds an identifier not below d.
        if b >= k {
          if b > k {
            assert LessEq(t[k], t[b]);
          }
          LessAsymmetric(x, d);
          LessIrreflexive(x);
        } else {
          StrictFromAdjacent(t, k);
          LessIrreflexive(x);
        }
        assert false;
      }
    }
  }

  /**
   * A successful construction stores one record per given provider: as many
   * records as providers, the same identifiers, a record for every provider
   * and no record that does not come from one.
   */
  lemma ConstructKeepsEveryProvider(ps: seq<Provider>, m: ProviderMap)
    requires Construct(ps) == Success(m)
    ensures Count(m) == |ps|
    ensures multiset(TypeIdentifiers(m.providers)) == multiset(Ids(ps))
    ensures forall p | p in ps :: Wrap(p) in m.providers
    ensures forall r | r in m.providers :: exists p | p in ps :: r == Wrap(p)
  {
    var sorted := SortById(ps);
    WrapAllIds(sorted);
    IdsPermutation(sorted, ps);
    assert |multiset(sorted)| == |multiset(ps)|;
    forall p | p in ps ensures Wrap(p) in m.providers {
      assert p in multiset(sorted);
      var k :| 0 <= k < |sorted| && sorted[k] == p;
      assert m.providers[k] == Wrap(p);
    }
    forall r | r in m.providers ensures exists p | p in ps :: r == Wrap(p) {
      var k :| 0 <= k < |m.providers| && m.providers[k] == r;
      assert sorted[k] in multiset(ps);
    }
  }

  /**
   * Determinism: providers given in any order produce the same outcome, the
   * same error or the very same records.
   */
  lemma ConstructIsOrderIndependent(ps: seq<Provider>, qs: seq<Provider>)
    requires multiset(ps) == multiset(qs)
    ensures Construct(ps) == Construct(qs)
  {
    var s, u := SortById(ps), SortById(qs);
    IdsPermutation(s, u);
    SortedUnique(Ids(s), Ids(u));
    if FirstAdjacentDuplicate(Ids(s)).None? {
      StrictFromAdjacent(Ids(s), |s|);
      DistinctIdsPermutation(s, u);
    }
  }

  /**
   * Two permutations of providers with the same identifiers, all different,
   * in the same order, are equal.
   */
  lemma DistinctIdsPermutation(s: seq<Provider>, u: seq<Provider>)
    requires multiset(s) == multiset(u) && Ids(s) == Ids(u)
    requires forall i, j | 0 <= i < j < |s| :: Less(Ids(s)[i], Ids(s)[j])
    ensures s == u
  {
    forall i | 0 <= i < |s| ensures s[i] == u[i] {
      assert s[i] in multiset(u);
      var k :| 0 <= k < |u| && u[k] == s[i];
      assert Ids(s)[i] == Ids(u)[k];
      LessIrreflexive(s[i].id);
      if k != i {
        assert false;
      }
    }
  }

  // Properties of lookup after construction.

  /** Every provider given to a successful construction is found again by `get`. */
  lemma GetFindsEveryProvider(ps: seq<Provider>, m: ProviderMap, p: Provider)
    requires Construct(ps) == Success(m) && p in ps
    ensures Lookup(m, p.id) == Success(p)
  {
    var sorted := SortById(ps);
    ConstructIsStrictlySorted(ps, m);
    assert p in multiset(sorted);
    var k :| 0 <= k < |sorted| && sorted[k] == p;
    assert m.providers[k] == Wrap(p);
    var f := FirstIndexOf(m.providers, p.id);
    assert f == k;
  }

  /** Asking for a type none of the given providers has fails with `providerTypeNotFound`. */
  lemma GetMissingTypeFails(ps: seq<Provider>, m: ProviderMap, id: Identifier)
    requires Construct(ps) == Success(m)
    requires forall p | p in ps :: p.id != id
    ensures Lookup(m, id) == Failure(ProviderTypeNotFound(id))
  {
    ConstructKeepsEveryProvider(ps, m);
    forall j | 0 <= j < |m.providers| ensures m.providers[j].typeIdentifier != id {
      assert m.providers[j] in m.providers;
    }
  }

  // Examples: two types in either order, and the same type given twice.

  /** Two types given in either order: one and the same outcome. */
  lemma ExampleTwoTypesOrder()
    ensures var a, b := Provider("A", [1]), Provider("B", [2]);
      Construct([a, b]) == Construct([b, a])
  {
    var a, b := Provider("A", [1]), Provider("B", [2]);
    assert multiset([a, b]) == multiset([b, a]);
    ConstructIsOrderIndependent([a, b], [b, a]);
  }

  /** That outcome is a map with two records. */
  lemma ExampleTwoTypesCount()
    ensures var a, b := Provider("A", [1]), Provider("B", [2]);
      && Construct([a, b]).Success?
      && Count(Construct([a, b]).value) == 2
  {
  }

  /** In that map `get` finds type "A" and fails for the absent type "C". */
  lemma ExampleTwoTypesLookup()
    ensures var a, b := Provider("A", [1]), Provider("B", [2]);
      && Construct([a, b]).Success?
      && Lookup(Construct([a, b]).value, "A") == Success(a)
      && Lookup(Construct([a, b]).value, "C") == Failure(ProviderTypeNotFound("C"))
  {
    var a, b := Provider("A", [1]), Provider("B", [2]);
    ExampleTwoTypesCount();
    var m := Construct([a, b]).value;
    GetFindsEveryProvider([a, b], m, a);
    GetMissingTypeFails([a, b], m, "C");
  }

  /** The same type given twice: construction fails naming that type. */
  lemma ExampleSameTypeTwice()
    ensures Construct([Provider("A", [1]), Provider("A", [2])]) == Failure(MultipleProviders("A"))
  {
  }
}
