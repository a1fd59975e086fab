/** A map whose keys are also queued in order of arrival, cut back to a capacity by dropping the oldest. */
module BoundedLedger {
  import opened Sequences

  /** The oldest entries over capacity. */
  function Retired(order: seq<string>, capacity: nat): seq<string> {
    if |order| <= capacity then [] else order[..|order| - capacity]
  }

  function Kept(order: seq<string>, capacity: nat): seq<string> {
    if |order| <= capacity then order else order[|order| - capacity..]
  }

  function WithoutKeys<V>(entries: map<string, V>, gone: seq<string>): map<string, V> {
    map id | id in entries && id !in gone :: entries[id]
  }

  /** Drops the oldest entries until the ledger is within its capacity. */
  method TrimLedger<V>(order: seq<string>, entries: map<string, V>, capacity: nat)
    returns (order': seq<string>, entries': map<string, V>)
    ensures order' == Kept(order, capacity)
    ensures entries' == WithoutKeys(entries, Retired(order, capacity))
  {
    order', entries' := order, entries;
    ghost var gone: nat := 0;
    while |order'| > capacity
      invariant gone <= |Retired(order, capacity)|
      invariant order' == order[gone..]
      invariant entries' == WithoutKeys(entries, order[..gone])
      decreases |order'|
    {
      assert order[..gone + 1] == order[..gone] + [order'[0]];
      entries' := entries' - {order'[0]};
      order' := order'[1..];
      gone := gone + 1;
    }
  }

  /** The queue holds each key of the map exactly once, and no more than fit. */
  ghost predicate LedgerOk<V>(order: seq<string>, entries: map<string, V>, capacity: nat) {
    NoDup(order) && |order| <= capacity && forall id :: id in order <==> id in entries
  }

  lemma AddedIsKept(order: seq<string>, id: string, capacity: nat)
    requires capacity > 0
    ensures id in Kept(order + [id], capacity)
  {
    var kept := Kept(order + [id], capacity);
    assert kept[|kept| - 1] == id;
  }

  lemma KeptOrRetired(order: seq<string>, capacity: nat)
    requires NoDup(order)
    ensures forall x :: x in Kept(order, capacity) <==> x in order && x !in Retired(order, capacity)
  {
    var kept, gone := Kept(order, capacity), Retired(order, capacity);
    assert order == gone + kept;
    forall i, j | 0 <= i < |gone| && 0 <= j < |kept| ensures gone[i] != kept[j] {
      assert order[i] != order[|gone| + j];
    }
  }

  /** Adding a new entry and trimming keeps the ledger exact, and keeps the new entry. */
  lemma LedgerKeeps<V>(order: seq<string>, entries: map<string, V>, id: string, v: V, capacity: nat)
    requires LedgerOk(order, entries, capacity) && id !in entries && capacity > 0
    ensures LedgerOk(Kept(order + [id], capacity), WithoutKeys(entries[id := v], Retired(order + [id], capacity)),
      capacity)
    ensures id in Kept(order + [id], capacity)
  {
    AddedIsKept(order, id, capacity);
    KeptOrRetired(order + [id], capacity);
  }

  /** `id` is queued with at most `newer` entries behind it. */
  ghost predicate Retained(order: seq<string>, id: string, newer: nat) {
    exists k: nat :: k < |order| && order[k] == id && |order| - 1 - k <= newer
  }

  lemma AddedIsRetained(order: seq<string>, id: string, capacity: nat)
    requires capacity > 0
    ensures Retained(Kept(order + [id], capacity), id, 0)
  {
    var kept := Kept(order + [id], capacity);
    assert kept[|kept| - 1] == id;
  }

  /** One more entry moves the others back by one place; the `capacity` newest stay. */
  lemma KeptIsRetained(order: seq<string>, id: string, newer: nat, added: string, capacity: nat)
    requires Retained(order, id, newer) && |order| <= capacity && newer + 1 < capacity
    ensures Retained(Kept(order + [added], capacity), id, newer + 1)
  {
    var k: nat :| k < |order| && order[k] == id && |order| - 1 - k <= newer;
    var longer := order + [added];
    var kept := Kept(longer, capacity);
    var drop := |longer| - |kept|;
    assert longer[k] == id && kept == longer[drop..];
    assert kept[k - drop] == id;
  }

  /** An entry that stays queued keeps its value when another is added. */
  lemma RetainedValue<V>(
    order: seq<string>, entries: map<string, V>, id: string, newer: nat, added: string, v: V, capacity: nat)
    requires LedgerOk(order, entries, capacity) && added !in entries
    requires Retained(order, id, newer) && newer + 1 < capacity
    ensures Retained(Kept(order + [added], capacity), id, newer + 1)
    ensures var trimmed := WithoutKeys(entries[added := v], Retired(order + [added], capacity));
      id in entries && id in trimmed && trimmed[id] == entries[id]
  {
    assert id in order;
    KeptIsRetained(order, id, newer, added, capacity);
    LedgerKeeps(order, entries, added, v, capacity);
    assert id in Kept(order + [added], capacity);
  }
}
