/**
 * Providers and their type-erased records.
 *
 * A provider is a typed value whose type carries a stable identifier. The map
 * stores each provider as an `LLBAnyCodable` record: the type identifier and
 * the provider's encoded bytes. The per-type coding (JSON by default in llbuild2) is
 * taken here to be the identity on the payload bytes.
 */
module Providers {
  import opened Identifiers

  type Bytes = seq<bv8>

  /** A concrete provider value: the identifier of its type and its contents. */
  datatype Provider = Provider(id: Identifier, payload: Bytes)

  /** The erased record the map stores for one provider. */
  datatype AnyCodable = AnyCodable(typeIdentifier: Identifier, serializedCodable: Bytes)

  /** The provider's own `encode()`: decoding its bytes as its type gives it back. */
  function Encode(p: Provider): (b: Bytes)
    ensures Decode(p.id, b) == p
  {
    p.payload
  }

  /**
   * The target type's `init(from:)`, given the identifier of that type: the
   * result is a provider of that type.
   */
  function Decode(id: Identifier, bytes: Bytes): (r: Provider)
    ensures r.id == id
  {
    Provider(id, bytes)
  }

  /** Encoding a decoded provider gives the decoded bytes back. */
  lemma EncodeDecode(id: Identifier, bytes: Bytes)
    ensures Encode(Decode(id, bytes)) == bytes
  {
  }

  /**
   * `LLBAnyCodable(from:)`: assumed to record the provider's type identifier
   * and its encoding, and nothing else.
   */
  function Wrap(p: Provider): (r: AnyCodable)
    ensures r.typeIdentifier == p.id
    ensures Decode(r.typeIdentifier, r.serializedCodable) == p
  {
    AnyCodable(p.id, Encode(p))
  }

  function WrapAll(s: seq<Provider>): seq<AnyCodable> {
    seq(|s|, i requires 0 <= i < |s| => Wrap(s[i]))
  }

  /** The type identifiers of a sequence of providers, in order. */
  function Ids(s: seq<Provider>): seq<Identifier> {
    seq(|s|, i requires 0 <= i < |s| => s[i].id)
  }

  /** The type identifiers of a sequence of records, in order. */
  function TypeIdentifiers(records: seq<AnyCodable>): seq<Identifier> {
    seq(|records|, i requires 0 <= i < |records| => records[i].typeIdentifier)
  }

  lemma WrapAllIds(s: seq<Provider>)
    ensures TypeIdentifiers(WrapAll(s)) == Ids(s)
  {
  }

  lemma IdsAppend(x: seq<Provider>, y: seq<Provider>)
    ensures Ids(x + y) == Ids(x) + Ids(y)
  {
  }

  /** Taking one provider out of a sequence takes its identifier out of the identifiers. */
  lemma IdsRemoveOne(front: seq<Provider>, p: Provider, back: seq<Provider>)
    ensures multiset(Ids(front + [p] + back)) == multiset(Ids(front + back)) + multiset{p.id}
  {
    IdsAppend(front + [p], back);
    IdsAppend(front, [p]);
    IdsAppend(front, back);
    assert Ids([p]) == [p.id];
  }

  /** Removing the same provider from two permutations leaves permutations. */
  lemma RemoveMatching(a: seq<Provider>, b: seq<Provider>, k: nat)
    requires multiset(a) == multiset(b) && |a| > 0 && k < |b| && b[k] == a[0]
    ensures multiset(a[1..]) == multiset(b[..k] + b[k + 1..])
  {
    assert b == b[..k] + [a[0]] + b[k + 1..];
    assert multiset(b[..k] + b[k + 1..]) == multiset(b) - multiset{a[0]};
    assert a == [a[0]] + a[1..];
    assert multiset(a[1..]) == multiset(a) - multiset{a[0]};
  }

  /** Reordering providers reorders their identifiers the same way. */
  lemma {:induction false} IdsPermutation(a: seq<Provider>, b: seq<Provider>)
    requires multiset(a) == multiset(b)
    ensures multiset(Ids(a)) == multiset(Ids(b))
    decreases |a|
  {
    if |a| == 0 {
      assert |b| == |multiset(b)| == 0;
    } else {
      assert a[0] in multiset(b);
      var k :| 0 <= k < |b| && b[k] == a[0];
      RemoveMatching(a, b, k);
      IdsPermutation(a[1..], b[..k] + b[k + 1..]);
      assert b == b[..k] + [a[0]] + b[k + 1..];
      IdsRemoveOne(b[..k], a[0], b[k + 1..]);
      assert Ids(a) == [a[0].id] + Ids(a[1..]);
    }
  }

  /** The providers appear in ascending order of their type identifiers. */
  ghost predicate SortedById(s: seq<Provider>) {
    Sorted(Ids(s))
  }

  /** Inserts `p` into an ascending sequence, before the first identifier not below it. */
  function Insert(p: Provider, s: seq<Provider>): (r: seq<Provider>)
    requires SortedById(s)
    ensures SortedById(r)
    ensures multiset(r) == multiset(s) + multiset{p}
    decreases |s|
  {
    if s == [] then [p]
    else if LessEq(p.id, s[0].id) then
      InsertFrontSorted(p, s);
      [p] + s
    else
      LessTotal(p.id, s[0].id);
      assert Sorted(Ids(s[1..])) by {
        assert Ids(s[1..]) == Ids(s)[1..];
      }
      var tail := Insert(p, s[1..]);
      assert s == [s[0]] + s[1..];
      InsertAfterSorted(s[0], p, s[1..], tail);
      [s[0]] + tail
  }

  lemma InsertFrontSorted(p: Provider, s: seq<Provider>)
    requires SortedById(s) && |s| > 0 && LessEq(p.id, s[0].id)
    ensures SortedById([p] + s)
  {
    var r := [p] + s;
    forall i, j | 0 <= i < j < |r| ensures LessEq(Ids(r)[i], Ids(r)[j]) {
      if i == 0 {
        assert Ids(r)[j] == s[j - 1].id;
        if j > 1 {
          assert LessEq(Ids(s)[0], Ids(s)[j - 1]);
          LessEqTransitive(p.id, s[0].id, s[j - 1].id);
        }
      } else {
        assert LessEq(Ids(s)[i - 1], Ids(s)[j - 1]);
      }
    }
  }

  lemma InsertAfterSorted(x: Provider, p: Provider, s: seq<Provider>, tail: seq<Provider>)
    requires SortedById([x] + s) && Less(x.id, p.id)
    requires SortedById(tail) && multiset(tail) == multiset(s) + multiset{p}
    ensures SortedById([x] + tail)
  {
    forall q | q in tail ensures LessEq(x.id, q.id) {
      assert q in multiset(tail);
      if q != p {
        assert q in multiset(s);
        HeadBelowRest(x, s, q);
      }
    }
    ConsSorted(x, tail);
  }

  /** A provider below every provider of an ascending sequence can go in front of it. */
  lemma ConsSorted(x: Provider, s: seq<Provider>)
    requires SortedById(s) && forall q | q in s :: LessEq(x.id, q.id)
    ensures SortedById([x] + s)
  {
    var r := [x] + s;
    forall i, j | 0 <= i < j < |r| ensures LessEq(Ids(r)[i], Ids(r)[j]) {
      if i == 0 {
        assert s[j - 1] in s;
      } else {
        assert LessEq(Ids(s)[i - 1], Ids(s)[j - 1]);
      }
    }
  }

  /** In an ascending sequence the head is below every later provider. */
  lemma HeadBelowRest(x: Provider, s: seq<Provider>, q: Provider)
    requires SortedById([x] + s) && q in s
    ensures LessEq(x.id, q.id)
  {
    var k :| 0 <= k < |s| && s[k] == q;
    assert Ids([x] + s)[0] == x.id && Ids([x] + s)[k + 1] == q.id;
  }

  /**
   * The library sort the map applies to its input (`sorted(by:)` comparing
   * type identifiers with `<`), written as an insertion sort.
   */
  function SortById(s: seq<Provider>): (r: seq<Provider>)
    ensures SortedById(r)
    ensures multiset(r) == multiset(s)
    decreases |s|
  {
    if s == [] then []
    else
      assert s == [s[0]] + s[1..];
      Insert(s[0], SortById(s[1..]))
  }
}
