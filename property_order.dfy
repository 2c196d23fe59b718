/**
 * The order in which `Object.entries` lists an ordinary object's own string
 * keys (OrdinaryOwnPropertyKeys, section 10.1.11.1 of ECMA-262): first the
 * keys that are array indices, in ascending numeric order, then the other
 * keys in the order they were created.
 */
module PropertyOrder {
  import opened Seqs

  predicate IsDigit(c: char) {
    '0' <= c <= '9'
  }

  function DigitValue(c: char): nat {
    if IsDigit(c) then c as int - '0' as int else 0
  }

  /** The number a string of decimal digits denotes. */
  function DecimalValue(s: string): nat {
    if s == [] then 0 else 10 * DecimalValue(s[..|s| - 1]) + DigitValue(s[|s| - 1])
  }

  /** The largest array index, 2^32 - 2. */
  const MaxArrayIndex: nat := 4294967294

  /**
   * A key is an array index when it is the canonical decimal form of an
   * integer from 0 to 2^32 - 2: digits only, no leading zero except in "0".
   */
  predicate IsArrayIndex(k: string) {
    && |k| > 0
    && (forall i | 0 <= i < |k| :: IsDigit(k[i]))
    && (k[0] != '0' || k == "0")
    && DecimalValue(k) <= MaxArrayIndex
  }

  predicate IsNotArrayIndex(k: string) {
    !IsArrayIndex(k)
  }

  /** Keys in ascending order of the number they denote. */
  ghost predicate SortedByValue(ks: seq<string>) {
    forall i, j | 0 <= i < j < |ks| :: DecimalValue(ks[i]) <= DecimalValue(ks[j])
  }

  lemma SortedCons(x: string, rest: seq<string>)
    requires SortedByValue(rest)
    requires forall j | 0 <= j < |rest| :: DecimalValue(x) <= DecimalValue(rest[j])
    ensures SortedByValue([x] + rest)
  {
    SortedConsBy(x, rest, DecimalValue);
  }

  /** `SortedCons` for any measure of keys. */
  lemma SortedConsBy(x: string, rest: seq<string>, v: string -> nat)
    requires forall i, j | 0 <= i < j < |rest| :: v(rest[i]) <= v(rest[j])
    requires forall j | 0 <= j < |rest| :: v(x) <= v(rest[j])
    ensures forall i, j | 0 <= i < j < |[x] + rest| :: v(([x] + rest)[i]) <= v(([x] + rest)[j])
  {
    var r := [x] + rest;
    forall i, j | 0 <= i < j < |r| ensures v(r[i]) <= v(r[j]) {
      assert r[j] == rest[j - 1];
      if i > 0 {
        assert r[i] == rest[i - 1];
      }
    }
  }

  /** Places a key into a sorted sequence of keys. */
  function Insert(k: string, sorted: seq<string>): (r: seq<string>)
    requires SortedByValue(sorted)
    ensures |r| == |sorted| + 1
    ensures forall i | 0 <= i < |r| :: r[i] == k || r[i] in sorted
    ensures SortedByValue(r)
  {
    if sorted == [] then [k]
    else if DecimalValue(k) <= DecimalValue(sorted[0]) then [k] + sorted
    else
      var rest := Insert(k, sorted[1..]);
      forall j | 0 <= j < |rest| ensures DecimalValue(sorted[0]) <= DecimalValue(rest[j]) {
        if rest[j] != k {
          var i :| 0 <= i < |sorted[1..]| && sorted[1..][i] == rest[j];
          assert sorted[i + 1] == rest[j];
        }
      }
      SortedCons(sorted[0], rest);
      [sorted[0]] + rest
  }

  /** Inserting adds exactly the inserted key. */
  lemma {:induction false} InsertPermutes(k: string, sorted: seq<string>)
    requires SortedByValue(sorted)
    ensures multiset(Insert(k, sorted)) == multiset(sorted) + multiset{k}
  {
    if sorted != [] && DecimalValue(k) > DecimalValue(sorted[0]) {
      InsertPermutes(k, sorted[1..]);
      assert sorted == [sorted[0]] + sorted[1..];
    }
  }

  /** Insertion sort of keys by the number they denote. */
  function SortByValue(ks: seq<string>): (r: seq<string>)
    ensures |r| == |ks|
    ensures forall i | 0 <= i < |r| :: r[i] in ks
    ensures SortedByValue(r)
  {
    if ks == [] then [] else Insert(ks[0], SortByValue(ks[1..]))
  }

  /** Sorting only reorders the keys. */
  lemma {:induction false} SortPermutes(ks: seq<string>)
    ensures multiset(SortByValue(ks)) == multiset(ks)
  {
    if ks != [] {
      SortPermutes(ks[1..]);
      InsertPermutes(ks[0], SortByValue(ks[1..]));
      assert ks == [ks[0]] + ks[1..];
    }
  }

  /**
   * The own-key order of an object whose keys were created in the order
   * `created`: array indices first, ascending, then the rest in creation
   * order. It lists the same keys as `created`.
   */
  function OwnPropertyKeys(created: seq<string>): seq<string> {
    SortByValue(Filter(created, IsArrayIndex)) + Filter(created, IsNotArrayIndex)
  }

  /** The own-key order lists exactly the created keys. */
  lemma OwnPropertyKeysPermutes(created: seq<string>)
    ensures multiset(OwnPropertyKeys(created)) == multiset(created)
  {
    var indices := Filter(created, IsArrayIndex);
    var others := Filter(created, IsNotArrayIndex);
    SortPermutes(indices);
    forall x ensures (multiset(indices) + multiset(others))[x] == multiset(created)[x] {
      if IsArrayIndex(x) {
        assert multiset(others)[x] == 0;
      } else {
        assert multiset(indices)[x] == 0;
      }
    }
    assert multiset(indices) + multiset(others) == multiset(created);
    assert multiset(OwnPropertyKeys(created)) == multiset(SortByValue(indices)) + multiset(others);
  }

  /** Reordering keeps the same keys, and distinct keys stay distinct. */
  lemma OwnPropertyKeysMembers(created: seq<string>)
    ensures forall k :: k in OwnPropertyKeys(created) <==> k in created
    ensures NoDuplicates(created) ==> NoDuplicates(OwnPropertyKeys(created))
  {
    OwnPropertyKeysPermutes(created);
    forall k ensures k in OwnPropertyKeys(created) <==> k in created {
      assert k in OwnPropertyKeys(created) <==> k in multiset(OwnPropertyKeys(created));
    }
    if NoDuplicates(created) {
      PermutationKeepsNoDuplicates(OwnPropertyKeys(created), created);
    }
  }

  /** Array-index keys come first, in ascending numeric order. */
  lemma OwnPropertyKeysIndicesFirst(created: seq<string>)
    ensures var r := OwnPropertyKeys(created);
      forall i, j | 0 <= i < j < |r| :: IsArrayIndex(r[j]) ==>
        IsArrayIndex(r[i]) && DecimalValue(r[i]) <= DecimalValue(r[j])
  {
    var indices := Filter(created, IsArrayIndex);
    var others := Filter(created, IsNotArrayIndex);
    var sorted := SortByValue(indices);
    var r := sorted + others;
    assert forall i | |sorted| <= i < |r| :: r[i] in others;
  }

  /** The keys that are not array indices keep their creation order. */
  lemma OtherKeysKeepCreationOrder(created: seq<string>)
    ensures OwnPropertyKeys(created)[|OwnPropertyKeys(created)| - |Filter(created, IsNotArrayIndex)|..]
      == Filter(created, IsNotArrayIndex)
    ensures IsSubsequence(Filter(created, IsNotArrayIndex), created)
  {
    OwnPropertyKeysPermutes(created);
  }

  /**
   * Two keys that are not array indices are listed in the order they were
   * created (keys of an object are distinct).
   */
  lemma OtherKeysInCreationOrder(created: seq<string>)
    requires NoDuplicates(created)
    ensures var r := OwnPropertyKeys(created);
      forall i, j | 0 <= i < j < |r| && !IsArrayIndex(r[i]) && !IsArrayIndex(r[j]) ::
        r[i] in created && r[j] in created && FirstIndex(created, r[i]) < FirstIndex(created, r[j])
  {
    var sorted, others := SortByValue(Filter(created, IsArrayIndex)), Filter(created, IsNotArrayIndex);
    assert forall k | 0 <= k < |sorted| :: IsArrayIndex(sorted[k]) by {
      SortedKeysAreIndices(created);
    }
    FilterInFirstOccurrenceOrder(created, IsNotArrayIndex);
    IndicesThenOrdered(sorted, others, created);
  }

  /** The sorted front of the own-key order holds array indices only. */
  lemma SortedKeysAreIndices(created: seq<string>)
    ensures var sorted := SortByValue(Filter(created, IsArrayIndex));
      forall k | 0 <= k < |sorted| :: IsArrayIndex(sorted[k])
  {
    var indices := Filter(created, IsArrayIndex);
    var sorted := SortByValue(indices);
    SortPermutes(indices);
    forall k | 0 <= k < |sorted| ensures IsArrayIndex(sorted[k]) {
      assert sorted[k] in multiset(sorted);
      assert sorted[k] in indices;
    }
  }

  /**
   * Array indices followed by keys in creation order: any two keys that are
   * not array indices are in creation order.
   */
  lemma IndicesThenOrdered(sorted: seq<string>, others: seq<string>, created: seq<string>)
    requires forall k | 0 <= k < |sorted| :: IsArrayIndex(sorted[k])
    requires InFirstOccurrenceOrder(others, created)
    ensures var r := sorted + others;
      forall i, j | 0 <= i < j < |r| && !IsArrayIndex(r[i]) && !IsArrayIndex(r[j]) ::
        r[i] in created && r[j] in created && FirstIndex(created, r[i]) < FirstIndex(created, r[j])
  {
    var r := sorted + others;
    forall i, j | 0 <= i < j < |r| && !IsArrayIndex(r[i]) && !IsArrayIndex(r[j])
      ensures r[i] in created && r[j] in created && FirstIndex(created, r[i]) < FirstIndex(created, r[j])
    {
      assert forall k | 0 <= k < |sorted| :: r[k] == sorted[k];
      assert r[i] == others[i - |sorted|] && r[j] == others[j - |sorted|];
    }
  }

  /** When no key is an array index, the own-key order is the creation order. */
  lemma {:induction false} NoIndexKeysKeepCreationOrder(created: seq<string>)
    requires forall i | 0 <= i < |created| :: !IsArrayIndex(created[i])
    ensures OwnPropertyKeys(created) == created
  {
    FilterNone(created, IsArrayIndex);
    FilterAll(created, IsNotArrayIndex);
  }
}
