/**
 * The comparator `applyFilters` hands to `Array.prototype.sort`
 * (src/utils/filters.ts): text columns compare their lower-cased values with
 * `localeCompare`, every other column compares with `>` and `<`, and a descending
 * sort negates the ascending result.
 */
module Ordering {
  import opened Text
  import opened Node

  /** The columns whose values are strings (`typeof aVal === 'string'`). */
  predicate IsTextKey(key: SortKey) {
    key.ByIdentity? || key.ByStatus? || key.ByPeerId? || key.ByVersion?
  }

  function TextField(key: SortKey, n: PNode): string
    requires IsTextKey(key)
  {
    match key
    case ByIdentity => n.identity
    case ByStatus => StatusName(n.status)
    case ByPeerId => n.peerId
    case ByVersion => n.version
  }

  /** The numeric value of a non-text column; a date compares by its timestamp. */
  function NumberField(key: SortKey, n: PNode): real
    requires !IsTextKey(key)
  {
    match key
    case ByUptime => n.uptime
    case ByPerformance => n.performance
    case ByLastHeartbeat => n.lastHeartbeat as real
    case ByStorageUsed => n.storageUsed
    case ByStorageCap => n.storageCap
    case BySlotsProduced => n.slotsProduced as real
    case BySlotsSkipped => n.slotsSkipped as real
    case ByReputation => n.reputation
  }

  /** `aVal > bVal ? 1 : aVal < bVal ? -1 : 0`. */
  function CompareNumbers(a: real, b: real): (r: int)
    ensures r < 0 <==> a < b
    ensures r == 0 <==> a == b
  {
    if a > b then 1 else if a < b then -1 else 0
  }

  /** `a.toLowerCase().localeCompare(b.toLowerCase())`. */
  function CompareText(a: string, b: string): (r: int)
    ensures r == 0 <==> Lower(a) == Lower(b)
  {
    CollateZeroIffEqual(Lower(a), Lower(b));
    Collate(Lower(a), Lower(b))
  }

  /** The ascending comparison of two nodes on one column. */
  function Ascending(key: SortKey, a: PNode, b: PNode): int {
    if IsTextKey(key) then CompareText(TextField(key, a), TextField(key, b))
    else CompareNumbers(NumberField(key, a), NumberField(key, b))
  }

  /** The comparator proper: `sortOrder === 'asc' ? comparison : -comparison`. */
  function Compare(key: SortKey, order: SortOrder, a: PNode, b: PNode): (r: int)
    ensures order == Asc ==> r == Ascending(key, a, b)
    ensures order == Desc ==> r == -Ascending(key, a, b)
  {
    var comparison := Ascending(key, a, b);
    if order == Asc then comparison else -comparison
  }

  /** Two nodes tie on a column: neither sorts before the other, in either direction. */
  predicate Tie(key: SortKey, a: PNode, b: PNode) {
    Ascending(key, a, b) == 0
  }

  /**
   * A tie is a tie whatever the direction: `-comparison` of a tie is `-0`, which the
   * sort treats as equal, so both directions keep tied nodes in input order.
   */
  lemma TieIndependentOfOrder(key: SortKey, order: SortOrder, a: PNode, b: PNode)
    ensures Compare(key, order, a, b) == 0 <==> Tie(key, a, b)
  {
  }

  /** Two nodes tie on a text column iff their lower-cased values are equal. */
  lemma TextTieIffSameLowercase(key: SortKey, a: PNode, b: PNode)
    requires IsTextKey(key)
    ensures Tie(key, a, b) <==> Lower(TextField(key, a)) == Lower(TextField(key, b))
  {
  }

  lemma AscendingReflexive(key: SortKey, a: PNode)
    ensures Ascending(key, a, a) == 0
  {
  }

  lemma AscendingAntisymmetric(key: SortKey, a: PNode, b: PNode)
    ensures Ascending(key, a, b) == -Ascending(key, b, a)
  {
    if IsTextKey(key) {
      CollateAntisymmetric(Lower(TextField(key, a)), Lower(TextField(key, b)));
    }
  }

  lemma AscendingTransitive(key: SortKey, a: PNode, b: PNode, c: PNode)
    requires Ascending(key, a, b) <= 0 && Ascending(key, b, c) <= 0
    ensures Ascending(key, a, c) <= 0
  {
    if IsTextKey(key) {
      CollateTransitive(Lower(TextField(key, a)), Lower(TextField(key, b)), Lower(TextField(key, c)));
    }
  }

  /** Swapping the nodes negates the comparison. */
  lemma CompareAntisymmetric(key: SortKey, order: SortOrder, a: PNode, b: PNode)
    ensures Compare(key, order, a, b) == -Compare(key, order, b, a)
  {
    AscendingAntisymmetric(key, a, b);
  }

  /** The comparator is a consistent comparator in the sense the sort requires: transitive. */
  lemma CompareTransitive(key: SortKey, order: SortOrder, a: PNode, b: PNode, c: PNode)
    requires Compare(key, order, a, b) <= 0 && Compare(key, order, b, c) <= 0
    ensures Compare(key, order, a, c) <= 0
  {
    if order == Asc {
      AscendingTransitive(key, a, b, c);
    } else {
      AscendingAntisymmetric(key, a, b);
      AscendingAntisymmetric(key, b, c);
      AscendingAntisymmetric(key, a, c);
      AscendingTransitive(key, c, b, a);
    }
  }

  /** A node strictly before `b` is strictly before anything `b` does not follow. */
  lemma CompareStrictTransitive(key: SortKey, order: SortOrder, a: PNode, b: PNode, c: PNode)
    requires Compare(key, order, a, b) < 0 && Compare(key, order, b, c) <= 0
    ensures Compare(key, order, a, c) < 0
  {
    if Compare(key, order, a, c) >= 0 {
      CompareAntisymmetric(key, order, a, c);
      CompareTransitive(key, order, b, c, a);
      CompareAntisymmetric(key, order, b, a);
    }
  }

  /** Ties form an equivalence: two nodes tied with a third are tied with each other. */
  lemma TieTransitive(key: SortKey, a: PNode, b: PNode, k: PNode)
    requires Tie(key, a, k) && Tie(key, b, k)
    ensures Tie(key, a, b)
  {
    AscendingAntisymmetric(key, b, k);
    AscendingTransitive(key, a, k, b);
    AscendingAntisymmetric(key, a, k);
    AscendingTransitive(key, b, k, a);
    AscendingAntisymmetric(key, a, b);
  }
}
