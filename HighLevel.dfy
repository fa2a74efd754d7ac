/** Trust-level extraction for levels 2 and up (`parseHighLevelData`): the
    connect page's requirement card, already located in the document, becomes
    an ordered list of requirement items.

    The document is given as the records its selectors find, in document
    order. Every text is the element's `textContent.trim()`; a text whose
    element is missing is "" wherever the source treats a missing and an empty
    text alike (`?.textContent.trim()` checked for truthiness, or `|| ''`). */
module HighLevel {
  import opened Text
  import opened Requirements

  // In these records `name` is the text of the element's label child (`.tl3-ring-label`,
  // `.tl3-bar-label`, …), which the source calls `label`.

  /** `.tl3-ring`: name, current value, target text, and whether its circle has class `met`. */
  datatype Ring = Ring(name: string, current: string, targetText: string, circleMet: bool)

  /** `.tl3-bar-item`: name and the `current/required` text, whose element may have class `met`. */
  datatype Bar = Bar(name: string, numsText: string, numsMet: bool)

  /** `.tl3-quota-card`: name and the `current/limit` text; the card itself may have class `met`. */
  datatype Quota = Quota(name: string, numsText: string, cardMet: bool)

  /** `.tl3-veto-item`: name, description, and the value, whose element may be absent. */
  datatype Veto = Veto(name: string, desc: string, value: Option<string>, met: bool)

  /** One `td` of the legacy table: its text and whether it has class `text-green-500`. */
  datatype Cell = Cell(text: string, green: bool)

  /** The four card shapes found inside the requirements container. */
  datatype Section = Section(rings: seq<Ring>, bars: seq<Bar>, quotas: seq<Quota>, vetoes: seq<Veto>)

  /** The requirements container: the new `.card`, or (only when there is no
      `.card`) the legacy `div` whose `h2` mentions the trust level, with the
      rows of its table (`table tbody tr`, each a sequence of cells). */
  datatype Container =
    | Card(section: Section)
    | LegacyDiv(section: Section, rows: seq<seq<Cell>>)

  // ---------------------------------------------------------------- one record

  function RingItem(r: Ring): Option<Item> {
    if r.name != [] && r.current != [] then
      Some(Item(r.name, r.current, DigitsOnly(r.targetText), r.circleMet))
    else None
  }

  function BarItem(b: Bar): Option<Item> {
    var parts := Split(b.numsText, '/');
    if b.name != [] && |parts| == 2 then
      Some(Item(b.name, Trim(parts[0]), Trim(parts[1]), b.numsMet))
    else None
  }

  function QuotaItem(q: Quota): Option<Item> {
    var parts := Split(q.numsText, '/');
    if q.name != [] && |parts| == 2 then
      Some(Item(q.name, Trim(parts[0]), "≤" + Trim(parts[1]), q.cardMet))
    else None
  }

  function VetoItem(v: Veto): Option<Item> {
    if v.name != [] && v.value.Some? then
      Some(Item(v.name + "(" + v.desc + ")", v.value.value, "0", v.met))
    else None
  }

  /** Row `index` of the legacy table: the header row is skipped, short rows are dropped. */
  function RowItem(index: nat, row: seq<Cell>): Option<Item> {
    if index == 0 || |row| < 3 then None
    else Some(Item(row[0].text, row[1].text, row[2].text, row[1].green))
  }

  // ---------------------------------------------------------------- a sequence of records

  /** The items `f` yields for `xs`, in order (a `forEach` that pushes when `f` accepts). */
  function Collect<T>(xs: seq<T>, f: T -> Option<Item>): (items: seq<Item>)
    ensures |items| <= |xs|
  {
    if xs == [] then []
    else
      var init := Collect(xs[..|xs| - 1], f);
      match f(xs[|xs| - 1])
      case Some(it) => init + [it]
      case None => init
  }

  /** Every collected item comes from a record that produced it. */
  lemma {:induction false} CollectSources<T>(xs: seq<T>, f: T -> Option<Item>)
    ensures forall it :: it in Collect(xs, f) ==> exists x :: x in xs && f(x) == Some(it)
  {
    if xs != [] {
      var init := xs[..|xs| - 1];
      CollectSources(init, f);
      forall it | it in Collect(xs, f)
        ensures exists x :: x in xs && f(x) == Some(it)
      {
        if it in Collect(init, f) {
          var x :| x in init && f(x) == Some(it);
          assert x in xs;
        } else {
          assert f(xs[|xs| - 1]) == Some(it);
        }
      }
    }
  }

  /** One more record: `Collect` over a longer prefix appends what `f` gives for the new record. */
  lemma CollectStep<T>(xs: seq<T>, f: T -> Option<Item>, i: nat, item: Option<Item>)
    requires i < |xs| && f(xs[i]) == item
    ensures Collect(xs[..i + 1], f) == Collect(xs[..i], f) + (if item.Some? then [item.value] else [])
  {
    assert xs[..i + 1][..i] == xs[..i];
  }

  /** The legacy rows' items, row `k` being the `k`-th row of the table. */
  function RowItems(rows: seq<seq<Cell>>): seq<Item>
  {
    if rows == [] then []
    else
      var init := RowItems(rows[..|rows| - 1]);
      match RowItem(|rows| - 1, rows[|rows| - 1])
      case Some(it) => init + [it]
      case None => init
  }

  function CardItems(s: Section): seq<Item> {
    Collect(s.rings, RingItem) + Collect(s.bars, BarItem)
      + Collect(s.quotas, QuotaItem) + Collect(s.vetoes, VetoItem)
  }

  /** The items the container yields: its card items, or, when there are none
      and the container is the legacy one, its table rows. */
  function ContainerItems(c: Container): seq<Item> {
    var items := CardItems(c.section);
    if items == [] && c.LegacyDiv? then RowItems(c.rows) else items
  }

  /** Max level: level 3 or more, and either no target card or its badge says reached. */
  predicate IsMaxLevel(level: nat, targetLevel: Option<nat>, hasReachedTarget: bool) {
    level >= 3 && (targetLevel.None? || hasReachedTarget)
  }

  /** The target level reported: the card's, else the next level below 3, else none. */
  function ResolvedTarget(level: nat, targetLevel: Option<nat>): Option<string> {
    if targetLevel.Some? then Some(NatToString(targetLevel.value))
    else if level < 3 then Some(NatToString(level + 1))
    else None
  }

  // ---------------------------------------------------------------- the operation

  /** The rings' `forEach`: push `{label, current, required, isMet}` for every ring with a label and a current value. */
  method PushRingItems(items: seq<Item>, rings: seq<Ring>) returns (out: seq<Item>)
    ensures out == items + Collect(rings, RingItem)
  {
    out := items;
    var i := 0;
    while i < |rings|
      invariant 0 <= i <= |rings|
      invariant out == items + Collect(rings[..i], RingItem)
    {
      var ring := rings[i];
      var required := DigitsOnly(ring.targetText);
      CollectStep(rings, RingItem, i, RingItem(ring));
      if ring.name != [] && ring.current != [] {
        out := out + [Item(ring.name, ring.current, required, ring.circleMet)];
      }
      i := i + 1;
    }
    assert rings[..i] == rings;
  }

  /** The bars' `forEach`: push an item for every bar with a label whose text splits into two parts. */
  method PushBarItems(items: seq<Item>, bars: seq<Bar>) returns (out: seq<Item>)
    ensures out == items + Collect(bars, BarItem)
  {
    out := items;
    var i := 0;
    while i < |bars|
      invariant 0 <= i <= |bars|
      invariant out == items + Collect(bars[..i], BarItem)
    {
      var bar := bars[i];
      var item := BarItem(bar);
      CollectStep(bars, BarItem, i, item);
      if item.Some? {
        out := out + [item.value];
      }
      i := i + 1;
    }
    assert bars[..i] == bars;
  }

  /** The quotas' `forEach`: like the bars, with the required value prefixed by `≤`. */
  method PushQuotaItems(items: seq<Item>, quotas: seq<Quota>) returns (out: seq<Item>)
    ensures out == items + Collect(quotas, QuotaItem)
  {
    out := items;
    var i := 0;
    while i < |quotas|
      invariant 0 <= i <= |quotas|
      invariant out == items + Collect(quotas[..i], QuotaItem)
    {
      var quota := quotas[i];
      var item := QuotaItem(quota);
      CollectStep(quotas, QuotaItem, i, item);
      if item.Some? {
        out := out + [item.value];
      }
      i := i + 1;
    }
    assert quotas[..i] == quotas;
  }

  /** The vetoes' `forEach`: push `label(desc)` with required `"0"` for every veto with a label and a value element. */
  method PushVetoItems(items: seq<Item>, vetoes: seq<Veto>) returns (out: seq<Item>)
    ensures out == items + Collect(vetoes, VetoItem)
  {
    out := items;
    var i := 0;
    while i < |vetoes|
      invariant 0 <= i <= |vetoes|
      invariant out == items + Collect(vetoes[..i], VetoItem)
    {
      var veto := vetoes[i];
      CollectStep(vetoes, VetoItem, i, VetoItem(veto));
      if veto.name != [] && veto.value.Some? {
        out := out + [Item(veto.name + "(" + veto.desc + ")", veto.value.value, "0", veto.met)];
      }
      i := i + 1;
    }
    assert vetoes[..i] == vetoes;
  }

  /** The legacy table's `forEach`: skip row 0, push the first three cells of every row that has them. */
  method PushRowItems(items: seq<Item>, rows: seq<seq<Cell>>) returns (out: seq<Item>)
    ensures out == items + RowItems(rows)
  {
    out := items;
    var i := 0;
    while i < |rows|
      invariant 0 <= i <= |rows|
      invariant out == items + RowItems(rows[..i])
    {
      var row := rows[i];
      if i != 0 && |row| >= 3 {
        out := out + [Item(row[0].text, row[1].text, row[2].text, row[1].green)];
      }
      assert rows[..i + 1][..i] == rows[..i];
      i := i + 1;
    }
    assert rows[..i] == rows;
  }

  /** The item-collecting part of `parseHighLevelData`: the four card loops in
      order, then the legacy table when they found nothing in a legacy container. */
  method ExtractItems(target: Container) returns (items: seq<Item>)
    ensures items == ContainerItems(target)
  {
    var sec := target.section;
    items := PushRingItems([], sec.rings);
    assert items == Collect(sec.rings, RingItem);
    items := PushBarItems(items, sec.bars);
    items := PushQuotaItems(items, sec.quotas);
    items := PushVetoItems(items, sec.vetoes);
    assert items == CardItems(sec);
    if items == [] && target.LegacyDiv? {
      items := PushRowItems(items, target.rows);
    }
  }

  /** `parseHighLevelData`. `currentLevel` is the digit string read from the
      page, `targetLevel` the level shown in the card title, `hasReachedTarget`
      whether its badge has class `badge-success`; `now` stands for `Date.now()`.
      Without a container the result is the empty max-level snapshot or nothing. */
  method ParseHighLevel(container: Option<Container>, username: string, currentLevel: string,
                        targetLevel: Option<nat>, hasReachedTarget: bool, now: int)
    returns (r: Option<LevelSnapshot>)
    requires |currentLevel| >= 1 && AllDigits(currentLevel)
    ensures r.None? <==> container.None? && !IsMaxLevel(ParseNat(currentLevel), targetLevel, hasReachedTarget)
    ensures r.Some? ==> r.value.username == username && r.value.currentLevel == currentLevel
                        && r.value.timestamp == now && r.value.version.None?
    ensures r.Some? ==> r.value.isMaxLevel == IsMaxLevel(ParseNat(currentLevel), targetLevel, hasReachedTarget)
    ensures r.Some? ==> CountsAgree(r.value)
    ensures container.None? && r.Some? ==> r.value.items == [] && r.value.targetLevel.None?
    ensures container.Some? ==> r.Some? && r.value.items == ContainerItems(container.value)
    ensures container.Some? ==> r.Some? && r.value.targetLevel == ResolvedTarget(ParseNat(currentLevel), targetLevel)
  {
    var level := ParseNat(currentLevel);
    var isMaxLevel := IsMaxLevel(level, targetLevel, hasReachedTarget);
    if container.None? {
      if isMaxLevel {
        r := Some(LevelSnapshot(username, currentLevel, None, true, [], 0, 0, now, None));
      } else {
        r := None;
      }
      return;
    }
    var items := ExtractItems(container.value);
    var achievedCount := |MetItems(items)|;
    var resolvedTargetLevel := ResolvedTarget(level, targetLevel);
    r := Some(LevelSnapshot(username, currentLevel, resolvedTargetLevel, isMaxLevel, items,
                            achievedCount, |items|, now, None));
  }

  // ---------------------------------------------------------------- properties

  /** Levels below 3 are never the top level and always get a target; a top-level
      user without a target card gets none; a target read from the card is
      reported as its decimal text, which parses back to it. */
  lemma TargetRules(level: nat, targetLevel: Option<nat>, hasReachedTarget: bool)
    ensures level < 3 ==> !IsMaxLevel(level, targetLevel, hasReachedTarget)
                          && ResolvedTarget(level, targetLevel).Some?
    ensures IsMaxLevel(level, targetLevel, hasReachedTarget) && targetLevel.None?
            ==> ResolvedTarget(level, targetLevel).None?
    ensures targetLevel.Some? ==>
              && ResolvedTarget(level, targetLevel).Some?
              && |ResolvedTarget(level, targetLevel).value| >= 1
              && AllDigits(ResolvedTarget(level, targetLevel).value)
              && ParseNat(ResolvedTarget(level, targetLevel).value) == targetLevel.value
    ensures targetLevel.None? && level < 3 ==>
              && |ResolvedTarget(level, targetLevel).value| >= 1
              && AllDigits(ResolvedTarget(level, targetLevel).value)
              && ParseNat(ResolvedTarget(level, targetLevel).value) == level + 1
  {
    if targetLevel.Some? {
      ParseNatToString(targetLevel.value);
    } else if level < 3 {
      ParseNatToString(level + 1);
    }
  }

  /** A bar becomes an item exactly when it has a name and its text holds exactly one `/`. */
  lemma BarItemIff(b: Bar)
    ensures BarItem(b).Some? <==> b.name != [] && Occurrences(b.numsText, '/') == 1
  {
    SplitCount(b.numsText, '/');
  }

  /** A quota becomes an item exactly when it has a name and its text holds exactly one `/`. */
  lemma QuotaItemIff(q: Quota)
    ensures QuotaItem(q).Some? <==> q.name != [] && Occurrences(q.numsText, '/') == 1
  {
    SplitCount(q.numsText, '/');
  }

  /** A bar `"a / b"` with its one `/` at position `i` gives current `a` and required `b`, trimmed. */
  lemma BarItemValues(b: Bar, i: nat)
    requires b.name != [] && i < |b.numsText| && b.numsText[i] == '/'
    requires '/' !in b.numsText[..i] && '/' !in b.numsText[i + 1..]
    ensures BarItem(b) == Some(Item(b.name, Trim(b.numsText[..i]), Trim(b.numsText[i + 1..]), b.numsMet))
  {
    SplitAtSingleSeparator(b.numsText, '/', i);
  }

  /** A quota `"a / b"` gives current `a` and required `≤b`. */
  lemma QuotaItemValues(q: Quota, i: nat)
    requires q.name != [] && i < |q.numsText| && q.numsText[i] == '/'
    requires '/' !in q.numsText[..i] && '/' !in q.numsText[i + 1..]
    ensures QuotaItem(q) == Some(Item(q.name, Trim(q.numsText[..i]), "≤" + Trim(q.numsText[i + 1..]), q.cardMet))
  {
    SplitAtSingleSeparator(q.numsText, '/', i);
  }

  /** Shape rules over whole card sections: ring requirements are digit strings,
      quota requirements carry the `≤` prefix, veto requirements are `"0"` and
      veto labels carry their description in parentheses. */
  lemma ShapeRules(s: Section)
    ensures forall it :: it in Collect(s.rings, RingItem) ==> AllDigits(it.required) && it.name != [] && it.current != []
    ensures forall it :: it in Collect(s.quotas, QuotaItem) ==> |it.required| >= 1 && it.required[0] == '≤'
    ensures forall it :: it in Collect(s.vetoes, VetoItem) ==>
              it.required == "0" && exists v :: v in s.vetoes && it.name == v.name + "(" + v.desc + ")"
  {
    CollectSources(s.rings, RingItem);
    CollectSources(s.quotas, QuotaItem);
    CollectSources(s.vetoes, VetoItem);
    forall it | it in Collect(s.vetoes, VetoItem)
      ensures it.required == "0" && exists v :: v in s.vetoes && it.name == v.name + "(" + v.desc + ")"
    {
      var v :| v in s.vetoes && VetoItem(v) == Some(it);
    }
  }

  /** The four parts of a concatenation sit one after another. */
  lemma FourParts(r: seq<Item>, b: seq<Item>, q: seq<Item>, v: seq<Item>)
    ensures var items := r + b + q + v;
            && |items| == |r| + |b| + |q| + |v|
            && items[..|r|] == r
            && items[|r|..|r| + |b|] == b
            && items[|r| + |b|..|r| + |b| + |q|] == q
            && items[|r| + |b| + |q|..] == v
  {
    var items := r + b + q + v;
    assert items[..|r|] == r;
    assert items[|r|..|r| + |b|] == b;
    assert items[|r| + |b|..|r| + |b| + |q|] == q;
    assert items[|r| + |b| + |q|..] == v;
  }

  /** The card items are the ring items, then the bar items, then the quota items, then the veto items. */
  lemma CardOrder(s: Section)
    ensures var r, b, q, v := Collect(s.rings, RingItem), Collect(s.bars, BarItem),
                              Collect(s.quotas, QuotaItem), Collect(s.vetoes, VetoItem);
            var items := CardItems(s);
            && |items| == |r| + |b| + |q| + |v|
            && items[..|r|] == r
            && items[|r|..|r| + |b|] == b
            && items[|r| + |b|..|r| + |b| + |q|] == q
            && items[|r| + |b| + |q|..] == v
  {
    var r, b, q, v := Collect(s.rings, RingItem), Collect(s.bars, BarItem),
                      Collect(s.quotas, QuotaItem), Collect(s.vetoes, VetoItem);
    assert CardItems(s) == r + b + q + v;
    FourParts(r, b, q, v);
  }

  /** Collecting preserves the order of the records: the items of a prefix are a prefix of the items. */
  lemma {:induction false} CollectPrefix<T>(xs: seq<T>, f: T -> Option<Item>, n: nat)
    requires n <= |xs|
    ensures Collect(xs[..n], f) <= Collect(xs, f)
  {
    if n < |xs| {
      CollectPrefix(xs[..|xs| - 1], f, n);
      assert xs[..|xs| - 1][..n] == xs[..n];
    } else {
      assert xs[..n] == xs;
    }
  }

  /** Every legacy item comes from a data row (not the header) with at least three cells;
      its `isMet` is the green class of the current-value cell. */
  lemma {:induction false} RowItemsFromDataRows(rows: seq<seq<Cell>>)
    ensures forall it :: it in RowItems(rows) ==>
              exists k :: 1 <= k < |rows| && |rows[k]| >= 3 &&
                it == Item(rows[k][0].text, rows[k][1].text, rows[k][2].text, rows[k][1].green)
  {
    if rows != [] {
      var init := rows[..|rows| - 1];
      RowItemsFromDataRows(init);
      forall it | it in RowItems(rows)
        ensures exists k :: 1 <= k < |rows| && |rows[k]| >= 3 &&
                  it == Item(rows[k][0].text, rows[k][1].text, rows[k][2].text, rows[k][1].green)
      {
        if it in RowItems(init) {
          var k :| 1 <= k < |init| && |init[k]| >= 3 &&
                   it == Item(init[k][0].text, init[k][1].text, init[k][2].text, init[k][1].green);
          assert init[k] == rows[k];
        } else {
          var k := |rows| - 1;
          assert RowItem(k, rows[k]) == Some(it);
        }
      }
    }
  }

  /** The header row never contributes: replacing it changes nothing. */
  lemma {:induction false} HeaderRowIgnored(rows: seq<seq<Cell>>, header: seq<Cell>)
    requires rows != []
    ensures RowItems([header] + rows[1..]) == RowItems(rows)
  {
    var other := [header] + rows[1..];
    if |rows| > 1 {
      HeaderRowIgnored(rows[..|rows| - 1], header);
      assert other[..|other| - 1] == [header] + rows[..|rows| - 1][1..];
      assert other[|other| - 1] == rows[|rows| - 1];
    }
  }

  /** The legacy table is read only when the container is the legacy one and no card item was found. */
  lemma LegacyOnlyAsFallback(c: Container)
    ensures CardItems(c.section) != [] ==> ContainerItems(c) == CardItems(c.section)
    ensures c.Card? ==> ContainerItems(c) == CardItems(c.section)
    ensures c.LegacyDiv? && CardItems(c.section) == [] ==> ContainerItems(c) == RowItems(c.rows)
  {
  }
}
