/** The normalised trust-level model: one requirement item per criterion and the
    snapshot the extractor returns. */
module Requirements {
  import opened Text

  /** One measurable criterion: `{label, current, required, isMet}`. The field
      `name` holds the source's `label` (`label` is a reserved word in Dafny). */
  datatype Item = Item(name: string, current: string, required: string, isMet: bool)

  /** The snapshot object built by the extractor. `version` is absent until the
      loader stamps it; `isMaxLevel` is false on the summary path, where the
      source leaves the field undefined. */
  datatype LevelSnapshot = LevelSnapshot(
    username: string,
    currentLevel: string,
    targetLevel: Option<string>,
    isMaxLevel: bool,
    items: seq<Item>,
    achievedCount: nat,
    totalCount: nat,
    timestamp: int,
    version: Option<int>)

  /** `items.filter(i => i.isMet)`. */
  function MetItems(items: seq<Item>): (r: seq<Item>)
    ensures |r| <= |items|
    ensures forall k :: 0 <= k < |r| ==> r[k].isMet && r[k] in items
  {
    if items == [] then []
    else if items[0].isMet then [items[0]] + MetItems(items[1..])
    else MetItems(items[1..])
  }

  /** `items.filter(i => i.isMet).length`. */
  function CountMet(items: seq<Item>): nat {
    |MetItems(items)|
  }

  /** Filtering a concatenation filters each part, keeping their order. */
  lemma {:induction false} MetItemsAppend(a: seq<Item>, b: seq<Item>)
    ensures MetItems(a + b) == MetItems(a) + MetItems(b)
  {
    if a != [] {
      assert (a + b)[0] == a[0];
      assert (a + b)[1..] == a[1..] + b;
      MetItemsAppend(a[1..], b);
    } else {
      assert a + b == b;
    }
  }

  /** The met count of a concatenation is the sum of the parts' met counts. */
  lemma CountMetAppend(a: seq<Item>, b: seq<Item>)
    ensures CountMet(a + b) == CountMet(a) + CountMet(b)
  {
    MetItemsAppend(a, b);
  }

  /** Every item met exactly when the count reaches the total. */
  lemma {:induction false} CountMetAllIff(items: seq<Item>)
    ensures CountMet(items) == |items| <==> forall k :: 0 <= k < |items| ==> items[k].isMet
  {
    if items != [] {
      CountMetAllIff(items[1..]);
      assert forall k :: 1 <= k < |items| ==> items[k] == items[1..][k - 1];
    }
  }

  /** No item met exactly when the count is zero. */
  lemma {:induction false} CountMetNoneIff(items: seq<Item>)
    ensures CountMet(items) == 0 <==> forall k :: 0 <= k < |items| ==> !items[k].isMet
  {
    if items != [] {
      CountMetNoneIff(items[1..]);
      assert forall k :: 1 <= k < |items| ==> items[k] == items[1..][k - 1];
    }
  }

  /** The counts a snapshot carries agree with its items. */
  predicate CountsAgree(s: LevelSnapshot) {
    s.achievedCount == CountMet(s.items) && s.totalCount == |s.items|
  }

  lemma AchievedAtMostTotal(s: LevelSnapshot)
    requires CountsAgree(s)
    ensures s.achievedCount <= s.totalCount
  {
  }
}
