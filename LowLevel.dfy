/** Trust-level evaluation for levels 0 and 1 (the part of `fetchLowLevelData`
    after `summary.json` has been fetched): the fixed per-level thresholds are
    checked against the user's summary counters. */
module LowLevel {
  import opened Text
  import opened Requirements

  /** The `user_summary` counters the thresholds refer to. */
  datatype Field =
    | TopicsEntered | PostsReadCount | TimeRead | DaysVisited
    | LikesGiven | LikesReceived | PostCount

  /** The fetched `user_summary`: a counter missing from the map is missing (or
      falsy) in the JSON. */
  type Summary = map<Field, nat>

  /** `LEVEL_REQUIREMENTS[level]`, entries in the object's key order; time in seconds. */
  function LevelRequirements(level: nat): Option<seq<(Field, nat)>> {
    if level == 0 then
      Some([(TopicsEntered, 5), (PostsReadCount, 30), (TimeRead, 600)])
    else if level == 1 then
      Some([(DaysVisited, 15), (LikesGiven, 1), (LikesReceived, 1), (PostCount, 3),
            (TopicsEntered, 20), (PostsReadCount, 100), (TimeRead, 3600)])
    else None
  }

  /** The label `fieldMap` gives each counter. */
  function FieldLabel(f: Field): string {
    match f
    case TopicsEntered => "浏览的话题"
    case PostsReadCount => "已读帖子"
    case TimeRead => "阅读时间(分钟)"
    case DaysVisited => "访问天数"
    case LikesGiven => "给出的赞"
    case LikesReceived => "收到的赞"
    case PostCount => "帖子数量"
  }

  /** `field.divider`: only the reading time has one (seconds shown as minutes). */
  function Divider(f: Field): nat {
    if f == TimeRead then 60 else 1
  }

  /** `summary[key] || 0`: the raw counter, 0 when absent. */
  function RawValue(s: Summary, f: Field): nat {
    if f in s then s[f] else 0
  }

  /** The value shown: the raw counter, in whole minutes for the reading time. */
  function DisplayValue(s: Summary, f: Field): nat {
    RawValue(s, f) / Divider(f)
  }

  /** The item for one table entry: shown in display units, met on raw units. */
  function RequirementItem(s: Summary, f: Field, required: nat): Item {
    Item(FieldLabel(f), NatToString(DisplayValue(s, f)), NatToString(required / Divider(f)),
         RawValue(s, f) >= required)
  }

  /** The evaluation. `summary` is None when the CSRF meta tag is missing, the
      request fails, or the response has no `user_summary`; `now` stands for
      `Date.now()`. The result follows the level's table entry by entry. */
  method EvaluateLowLevel(username: string, currentLevel: nat, summary: Option<Summary>, now: int)
    returns (r: Option<LevelSnapshot>)
    ensures r.Some? <==> summary.Some? && LevelRequirements(currentLevel).Some?
    ensures r.Some? ==> r.value.username == username && r.value.timestamp == now
                        && r.value.currentLevel == NatToString(currentLevel)
                        && r.value.targetLevel == Some(NatToString(currentLevel + 1))
                        && !r.value.isMaxLevel && r.value.version.None?
    ensures r.Some? ==> CountsAgree(r.value)
    ensures r.Some? ==>
              var reqs := LevelRequirements(currentLevel).value;
              && |r.value.items| == |reqs|
              && forall k :: 0 <= k < |reqs| ==>
                   r.value.items[k] == RequirementItem(summary.value, reqs[k].0, reqs[k].1)
    ensures r.Some? ==>
              var reqs := LevelRequirements(currentLevel).value;
              forall k :: 0 <= k < |reqs| ==>
                (r.value.items[k].isMet <==> RawValue(summary.value, reqs[k].0) >= reqs[k].1)
  {
    if summary.None? {
      return None;
    }
    var s := summary.value;
    var requirements := LevelRequirements(currentLevel);
    if requirements.None? {
      return None;
    }
    var reqs := requirements.value;
    var targetLevel := NatToString(currentLevel + 1);
    var items := EvaluateItems(s, reqs);
    r := Some(LevelSnapshot(username, NatToString(currentLevel), Some(targetLevel), false, items,
                            |MetItems(items)|, |items|, now, None));
  }

  /** The loop over one level's table: one item per entry, in table order. */
  method EvaluateItems(s: Summary, reqs: seq<(Field, nat)>) returns (items: seq<Item>)
    ensures |items| == |reqs|
    ensures forall k :: 0 <= k < |reqs| ==> items[k] == RequirementItem(s, reqs[k].0, reqs[k].1)
    ensures forall k :: 0 <= k < |reqs| ==> (items[k].isMet <==> RawValue(s, reqs[k].0) >= reqs[k].1)
  {
    items := [];
    var i := 0;
    while i < |reqs|
      invariant 0 <= i <= |reqs|
      invariant |items| == i
      invariant forall k :: 0 <= k < i ==> items[k] == RequirementItem(s, reqs[k].0, reqs[k].1)
    {
      var (key, required) := reqs[i];
      var value := RawValue(s, key) / Divider(key);
      var displayRequired := if key == TimeRead then required / 60 else required;
      var rawValue := if key == TimeRead then RawValue(s, key) else value;
      var item := Item(FieldLabel(key), NatToString(value), NatToString(displayRequired), rawValue >= required);
      assert item == RequirementItem(s, key, required);
      items := items + [item];
      i := i + 1;
    }
  }

  // ---------------------------------------------------------------- properties

  /** Every threshold in the table is a whole number of display units. */
  lemma {:induction false} ThresholdsWhole(level: nat, k: nat)
    requires LevelRequirements(level).Some? && k < |LevelRequirements(level).value|
    ensures LevelRequirements(level).value[k].1 % Divider(LevelRequirements(level).value[k].0) == 0
  {
  }

  /** Comparing in raw seconds agrees with comparing the minutes shown, because
      the thresholds are whole minutes: the display never contradicts `isMet`. */
  lemma DisplayAgreesWithMet(s: Summary, f: Field, required: nat)
    requires required % Divider(f) == 0
    ensures RequirementItem(s, f, required).isMet <==> DisplayValue(s, f) >= required / Divider(f)
  {
    if f == TimeRead {
      var v := RawValue(s, f);
      var q := required / 60;
      assert required == q * 60;
      assert v / 60 >= q <==> v >= q * 60;
    }
  }

  /** Exactly 3600 seconds of reading at level 1 meets the 3600-second threshold and shows as 60 of 60 minutes. */
  lemma TimeReadBoundary(s: Summary)
    requires TimeRead in s && s[TimeRead] == 3600
    ensures RequirementItem(s, TimeRead, 3600) == Item("阅读时间(分钟)", "60", "60", true)
  {
    assert NatToString(6) == "6";
    assert NatToString(60) == NatToString(6) + "0";
  }

  /** With no counters at all, nothing is met: every threshold is positive. */
  lemma EmptySummaryMeetsNothing(level: nat, k: nat)
    requires LevelRequirements(level).Some? && k < |LevelRequirements(level).value|
    ensures var e := LevelRequirements(level).value[k];
            !RequirementItem(map[], e.0, e.1).isMet
  {
  }
}
