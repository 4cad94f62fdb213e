/**
 * Type identifiers of providers and the order the provider map sorts them by.
 *
 * Every provider type carries a stable string identifier (its polymorphic
 * identifier). The map compares identifiers with `<` on strings; here that is
 * the lexicographic order on the characters of the identifier.
 */
module Identifiers {

  type Identifier = string

  datatype Option<T> = None | Some(value: T)

  /**
   * `a` is a proper prefix of `b`, or at the first position where the two
   * differ `a` has the smaller character.
   */
  ghost predicate Lexicographic(a: Identifier, b: Identifier) {
    exists k | 0 <= k <= |a| && k < |b| :: a[..k] == b[..k] && (k == |a| || a[k] < b[k])
  }

  /** Strict order on identifiers, compared character by character from the front. */
  predicate Less(a: Identifier, b: Identifier)
    decreases |a|
  {
    if |a| == 0 then |b| > 0
    else if |b| == 0 then false
    else if a[0] != b[0] then a[0] < b[0]
    else Less(a[1..], b[1..])
  }

  /** The order `Less` computes is exactly the lexicographic order. */
  lemma {:induction false} LessIsLexicographic(a: Identifier, b: Identifier)
    ensures Less(a, b) <==> Lexicographic(a, b)
    decreases |a|
  {
    if |a| == 0 {
      assert |b| > 0 ==> a[..0] == b[..0];
    } else if |b| > 0 && a[0] != b[0] {
      LexicographicHead(a, b);
    } else if |b| > 0 {
      LexicographicStep(a, b);
      LessIsLexicographic(a[1..], b[1..]);
    }
  }

  /** When the first characters differ, they alone decide the order. */
  lemma LexicographicHead(a: Identifier, b: Identifier)
    requires |a| > 0 && |b| > 0 && a[0] != b[0]
    ensures Lexicographic(a, b) <==> a[0] < b[0]
  {
    if Lexicographic(a, b) {
      var k :| 0 <= k <= |a| && k < |b| && a[..k] == b[..k] && (k == |a| || a[k] < b[k]);
    }
    if a[0] < b[0] {
      assert a[..0] == b[..0];
    }
  }

  /** When the first characters agree, the order is that of the rests. */
  lemma LexicographicStep(a: Identifier, b: Identifier)
    requires |a| > 0 && |b| > 0 && a[0] == b[0]
    ensures Lexicographic(a, b) <==> Lexicographic(a[1..], b[1..])
  {
    if Lexicographic(a, b) {
      var k :| 0 <= k <= |a| && k < |b| && a[..k] == b[..k] && (k == |a| || a[k] < b[k]);
      assert k > 0;
      assert a[1..][..k - 1] == a[..k][1..] == b[..k][1..] == b[1..][..k - 1];
      assert k - 1 == |a[1..]| || a[1..][k - 1] < b[1..][k - 1];
    }
    if Lexicographic(a[1..], b[1..]) {
      var k :| 0 <= k <= |a[1..]| && k < |b[1..]| && a[1..][..k] == b[1..][..k]
               && (k == |a[1..]| || a[1..][k] < b[1..][k]);
      assert a[..k + 1] == [a[0]] + a[1..][..k];
      assert b[..k + 1] == [b[0]] + b[1..][..k];
      assert k + 1 == |a| || a[k + 1] < b[k + 1];
    }
  }

  predicate LessEq(a: Identifier, b: Identifier) {
    a == b || Less(a, b)
  }

  lemma {:induction false} LessIrreflexive(a: Identifier)
    ensures !Less(a, a)
    decreases |a|
  {
    if |a| > 0 {
      LessIrreflexive(a[1..]);
    }
  }

  lemma {:induction false} LessAsymmetric(a: Identifier, b: Identifier)
    ensures !(Less(a, b) && Less(b, a))
    decreases |a|
  {
    if |a| > 0 && |b| > 0 && a[0] == b[0] {
      LessAsymmetric(a[1..], b[1..]);
    }
  }

  lemma {:induction false} LessTransitive(a: Identifier, b: Identifier, c: Identifier)
    requires Less(a, b) && Less(b, c)
    ensures Less(a, c)
    decreases |a|
  {
    if |a| > 0 && |b| > 0 && |c| > 0 && a[0] == b[0] == c[0] {
      LessTransitive(a[1..], b[1..], c[1..]);
    }
  }

  /** Any two distinct identifiers are ordered one way or the other. */
  lemma {:induction false} LessTotal(a: Identifier, b: Identifier)
    ensures a == b || Less(a, b) || Less(b, a)
    decreases |a|
  {
    if |a| > 0 && |b| > 0 && a[0] == b[0] {
      LessTotal(a[1..], b[1..]);
      assert a == [a[0]] + a[1..];
      assert b == [b[0]] + b[1..];
    }
  }

  lemma LessEqAntisymmetric(a: Identifier, b: Identifier)
    requires LessEq(a, b) && LessEq(b, a)
    ensures a == b
  {
    LessAsymmetric(a, b);
  }

  lemma LessEqTransitive(a: Identifier, b: Identifier, c: Identifier)
    requires LessEq(a, b) && LessEq(b, c)
    ensures LessEq(a, c)
  {
    if a != b && b != c {
      LessTransitive(a, b, c);
    }
  }

  /** The identifiers appear in ascending (non-strict) order. */
  ghost predicate Sorted(t: seq<Identifier>) {
    forall i, j | 0 <= i < j < |t| :: LessEq(t[i], t[j])
  }

  /** The identifiers appear in strictly ascending order. */
  ghost predicate StrictlySorted(t: seq<Identifier>) {
    forall i, j | 0 <= i < j < |t| :: Less(t[i], t[j])
  }

  /** Some identifier occurs at two different positions. */
  ghost predicate HasDuplicate(t: seq<Identifier>) {
    exists i, j | 0 <= i < j < |t| :: t[i] == t[j]
  }

  /** No neighbouring pair among the first `n` identifiers is equal. */
  ghost predicate AdjacentDistinct(t: seq<Identifier>, n: nat)
    requires n <= |t|
  {
    forall k | 0 < k < n :: t[k - 1] != t[k]
  }

  /**
   * The identifier of the first neighbouring pair that is equal, scanning
   * from the front, or None when every neighbouring pair differs.
   */
  function FirstAdjacentDuplicate(t: seq<Identifier>): (r: Option<Identifier>)
    ensures r.None? <==> AdjacentDistinct(t, |t|)
    ensures r.Some? ==> exists k | 0 < k < |t| ::
      t[k - 1] == r.value && t[k] == r.value && AdjacentDistinct(t, k)
    decreases |t|
  {
    if |t| < 2 then None
    else if t[0] == t[1] then Some(t[0])
    else
      var r := FirstAdjacentDuplicate(t[1..]);
      assert r.Some? ==> exists k | 1 < k < |t| ::
        t[k - 1] == r.value && t[k] == r.value && AdjacentDistinct(t, k)
      by {
        if r.Some? {
          var k' :| 0 < k' < |t[1..]| && t[1..][k' - 1] == r.value && t[1..][k'] == r.value
                    && AdjacentDistinct(t[1..], k');
          assert AdjacentDistinct(t, k' + 1) by {
            forall k | 0 < k < k' + 1 ensures t[k - 1] != t[k] {
              if k > 1 {
                assert t[k - 1] == t[1..][k - 2] && t[k] == t[1..][k - 1];
              }
            }
          }
        }
      }
      assert r.None? ==> AdjacentDistinct(t, |t|) by {
        if r.None? {
          forall k | 0 < k < |t| ensures t[k - 1] != t[k] {
            if k > 1 {
              assert t[k - 1] == t[1..][k - 2] && t[k] == t[1..][k - 1];
            }
          }
        }
      }
      r
  }

  /** The first equal pair of neighbours is the one with no equal pair before it. */
  lemma FirstAdjacentDuplicateAt(t: seq<Identifier>, i: nat)
    requires 0 < i < |t| && t[i - 1] == t[i] && AdjacentDistinct(t, i)
    ensures FirstAdjacentDuplicate(t) == Some(t[i])
  {
    var r := FirstAdjacentDuplicate(t);
    var k :| 0 < k < |t| && t[k - 1] == r.value && t[k] == r.value && AdjacentDistinct(t, k);
    assert k == i;
  }

  /**
   * In an ascending sequence whose first `n` neighbours all differ, the first
   * `n` identifiers are strictly ascending.
   */
  lemma StrictFromAdjacent(t: seq<Identifier>, n: nat)
    requires n <= |t| && Sorted(t) && AdjacentDistinct(t, n)
    ensures forall i, j | 0 <= i < j < n :: Less(t[i], t[j])
  {
    forall i, j | 0 <= i < j < n ensures Less(t[i], t[j]) {
      if t[i] == t[j] {
        LessEqTransitive(t[i + 1], t[j], t[i]);
        LessEqAntisymmetric(t[i], t[i + 1]);
        assert false;
      }
    }
  }

  /** Two occurrences give a multiplicity of at least two. */
  lemma TwiceGivesCount(t: seq<Identifier>, i: nat, j: nat)
    requires i < j < |t| && t[i] == t[j]
    ensures multiset(t)[t[i]] >= 2
  {
    var x := t[i];
    assert t == t[..i] + [x] + t[i + 1..j] + [x] + t[j + 1..];
    assert multiset(t) == multiset(t[..i]) + multiset{x} + multiset(t[i + 1..j])
                          + multiset{x} + multiset(t[j + 1..]);
  }

  /** A multiplicity of at least two gives two occurrences. */
  lemma {:induction false} CountGivesTwice(t: seq<Identifier>, x: Identifier)
    requires multiset(t)[x] >= 2
    ensures exists i, j | 0 <= i < j < |t| :: t[i] == x && t[j] == x
    decreases |t|
  {
    assert t == [t[0]] + t[1..];
    assert multiset(t) == multiset{t[0]} + multiset(t[1..]);
    if t[0] == x {
      assert x in multiset(t[1..]);
      var j :| 0 <= j < |t[1..]| && t[1..][j] == x;
      assert t[0] == x && t[j + 1] == x;
    } else {
      CountGivesTwice(t[1..], x);
      var i, j :| 0 <= i < j < |t[1..]| && t[1..][i] == x && t[1..][j] == x;
      assert t[i + 1] == x && t[j + 1] == x;
    }
  }

  /** Reordering identifiers neither creates nor removes duplicates. */
  lemma DuplicatePermutation(t: seq<Identifier>, u: seq<Identifier>)
    requires multiset(t) == multiset(u)
    ensures HasDuplicate(t) <==> HasDuplicate(u)
  {
    if HasDuplicate(t) {
      var i, j :| 0 <= i < j < |t| && t[i] == t[j];
      TwiceGivesCount(t, i, j);
      CountGivesTwice(u, t[i]);
    }
    if HasDuplicate(u) {
      var i, j :| 0 <= i < j < |u| && u[i] == u[j];
      TwiceGivesCount(u, i, j);
      CountGivesTwice(t, u[i]);
    }
  }

  /** An ascending sequence holds a duplicate exactly when two neighbours are equal. */
  lemma SortedDuplicateIsAdjacent(t: seq<Identifier>)
    requires Sorted(t)
    ensures HasDuplicate(t) <==> !AdjacentDistinct(t, |t|)
  {
    if AdjacentDistinct(t, |t|) {
      StrictFromAdjacent(t, |t|);
      forall i, j | 0 <= i < j < |t| ensures t[i] != t[j] {
        LessIrreflexive(t[i]);
      }
    } else {
      var k :| 0 < k < |t| && t[k - 1] == t[k];
      assert t[k - 1] == t[k];
    }
  }

  /** Two ascending arrangements of the same identifiers start alike. */
  lemma SortedHeads(t: seq<Identifier>, u: seq<Identifier>)
    requires Sorted(t) && Sorted(u) && multiset(t) == multiset(u) && |t| > 0 && |u| > 0
    ensures t[0] == u[0]
  {
    assert t[0] in multiset(u);
    assert u[0] in multiset(t);
    var k :| 0 <= k < |u| && u[k] == t[0];
    var l :| 0 <= l < |t| && t[l] == u[0];
    assert LessEq(u[0], t[0]) by { if k > 0 { assert LessEq(u[0], u[k]); } }
    assert LessEq(t[0], u[0]) by { if l > 0 { assert LessEq(t[0], t[l]); } }
    LessEqAntisymmetric(t[0], u[0]);
  }

  /** There is only one ascending arrangement of a multiset of identifiers. */
  lemma {:induction false} SortedUnique(t: seq<Identifier>, u: seq<Identifier>)
    requires Sorted(t) && Sorted(u) && multiset(t) == multiset(u)
    ensures t == u
    decreases |t|
  {
    if |t| == 0 {
      assert |u| == |multiset(u)| == 0;
    } else {
      assert |u| == |multiset(u)| == |t|;
      SortedHeads(t, u);
      assert t == [t[0]] + t[1..];
      assert u == [u[0]] + u[1..];
      assert multiset(t) == multiset{t[0]} + multiset(t[1..]);
      assert multiset(u) == multiset{u[0]} + multiset(u[1..]);
      assert multiset(t[1..]) == multiset(t) - multiset{t[0]};
      assert multiset(u[1..]) == multiset(u) - multiset{u[0]};
      SortedUnique(t[1..], u[1..]);
    }
  }
}
