/** The theme manager: the current theme name and the cyclic `next()` used by
    the theme button. The body's CSS classes and the stored preference are
    not modelled. */
module Theme {

  /** `Object.keys(THEMES)`, in declaration order. */
  const ThemeNames: seq<string> := ["default", "rpg", "pixel", "card", "cyber"]

  /** The keys every object literal inherits from `Object.prototype`. Looked up on
      `THEMES` each gives a function or an object, so `THEMES[name]` is truthy. */
  const InheritedKeys: set<string> := {
    "constructor", "hasOwnProperty", "isPrototypeOf", "propertyIsEnumerable",
    "toLocaleString", "toString", "valueOf", "__proto__",
    "__defineGetter__", "__defineSetter__", "__lookupGetter__", "__lookupSetter__"
  }

  /** `THEMES[name]` is truthy: an own theme key or an inherited one. */
  predicate ThemeLookupTruthy(name: string) {
    name in ThemeNames || name in InheritedKeys
  }

  /** `xs.indexOf(x)`: the first position of `x`, or -1. */
  function IndexOf(xs: seq<string>, x: string): (i: int)
    ensures -1 <= i < |xs|
  {
    if xs == [] then -1
    else if xs[0] == x then 0
    else
      var j := IndexOf(xs[1..], x);
      if j == -1 then -1 else j + 1
  }

  /** `indexOf` gives -1 exactly for an absent name, and otherwise the first position holding it. */
  lemma {:induction false} IndexOfSpec(xs: seq<string>, x: string)
    ensures var i := IndexOf(xs, x);
            && (i == -1 <==> x !in xs)
            && (0 <= i ==> xs[i] == x && x !in xs[..i])
  {
    if xs != [] && xs[0] != x {
      IndexOfSpec(xs[1..], x);
      var j := IndexOf(xs[1..], x);
      assert xs == [xs[0]] + xs[1..];
      if j != -1 {
        assert xs[..j + 1] == [xs[0]] + xs[1..][..j];
      }
    }
  }

  /** No name occurs twice. */
  predicate Distinct(xs: seq<string>) {
    forall i, j :: 0 <= i < j < |xs| ==> xs[i] != xs[j]
  }

  /** The name after `current` in `names`, wrapping round; an unknown `current`
      has index -1 and so gives the first name. */
  function NextIn(names: seq<string>, current: string): string
    requires |names| > 0
  {
    names[(IndexOf(names, current) + 1) % |names|]
  }

  /** The theme `next()` switches to. */
  function NextTheme(current: string): string {
    NextIn(ThemeNames, current)
  }

  /** The manager object: only `currentTheme` is state the model keeps. */
  class ThemeManager {
    var currentTheme: string

    constructor ()
      ensures currentTheme == "default"
    {
      currentTheme := "default";
    }

    /** `apply(themeName)`: takes the name as given, known or not. */
    method Apply(themeName: string)
      modifies this
      ensures currentTheme == themeName
    {
      currentTheme := themeName;
    }

    /** `switch(themeName)`: a name whose `THEMES` lookup is falsy is ignored; any
        other, an inherited key such as `toString` included, is applied. */
    method Switch(themeName: string)
      modifies this
      ensures ThemeLookupTruthy(themeName) ==> currentTheme == themeName
      ensures !ThemeLookupTruthy(themeName) ==> currentTheme == old(currentTheme)
    {
      if !ThemeLookupTruthy(themeName) {
        return;
      }
      Apply(themeName);
    }

    /** `next()`: switches to the following theme and returns its name. */
    method Next() returns (name: string)
      modifies this
      ensures name == NextTheme(old(currentTheme)) && currentTheme == name
    {
      var currentIndex := IndexOf(ThemeNames, currentTheme);
      var nextIndex := (currentIndex + 1) % |ThemeNames|;
      Switch(ThemeNames[nextIndex]);
      name := ThemeNames[nextIndex];
    }
  }

  // ---------------------------------------------------------------- properties

  /** `next()` applied `n` times over the list `names`. */
  function NextN(names: seq<string>, current: string, n: nat): string
    requires |names| > 0
    decreases n
  {
    if n == 0 then current else NextN(names, NextIn(names, current), n - 1)
  }

  /** In a list without repeats, `indexOf` finds each name at its own position. */
  lemma KnownIndex(names: seq<string>, k: nat)
    requires Distinct(names) && k < |names|
    ensures IndexOf(names, names[k]) == k
  {
    IndexOfSpec(names, names[k]);
  }

  /** `next` always lands on a listed name, and from an unlisted one on the first. */
  lemma NextInIsListed(names: seq<string>, current: string)
    requires |names| > 0
    ensures NextIn(names, current) in names
    ensures current !in names ==> NextIn(names, current) == names[0]
  {
    IndexOfSpec(names, current);
  }

  /** From each listed name `next` goes to its successor, the last wrapping to the first. */
  lemma NextInIsSuccessor(names: seq<string>, k: nat)
    requires Distinct(names) && k < |names|
    ensures NextIn(names, names[k]) == names[if k + 1 < |names| then k + 1 else 0]
    ensures NextIn(names, names[k]) == names[(k + 1) % |names|]
  {
    KnownIndex(names, k);
    if k + 1 < |names| {
      ModBelow(k + 1, |names|);
    } else {
      ModBelow(0, |names|);
      assert (k + 1) % |names| == (0 + |names|) % |names|;
    }
  }

  /** A number below the modulus is its own remainder, and so is it plus the modulus. */
  lemma ModBelow(a: nat, m: nat)
    requires a < m
    ensures a % m == a && (a + m) % m == a
  {
  }

  /** `n` presses without passing the end of the list move `n` places down it. */
  lemma {:induction false} NextNAdvances(names: seq<string>, k: nat, n: nat)
    requires Distinct(names) && k + n < |names|
    ensures NextN(names, names[k], n) == names[k + n]
    decreases n
  {
    if n > 0 {
      NextInIsSuccessor(names, k);
      NextNAdvances(names, k + 1, n - 1);
    }
  }

  /** Pressing `a` times and then `b` times is pressing `a + b` times. */
  lemma {:induction false} NextNCompose(names: seq<string>, current: string, a: nat, b: nat)
    requires |names| > 0
    ensures NextN(names, current, a + b) == NextN(names, NextN(names, current, a), b)
    decreases a
  {
    if a > 0 {
      NextNCompose(names, NextIn(names, current), a - 1, b);
    }
  }

  /** Pressing once per listed name returns to the name one started from. */
  lemma NextNCycles(names: seq<string>, k: nat, n: nat)
    requires Distinct(names) && k < |names| == n
    ensures NextN(names, names[k], n) == names[k]
  {
    var last := |names| - 1;
    var a := last - k;
    NextNAdvances(names, k, a);
    var x := NextN(names, names[k], a);
    assert x == names[last];
    NextInIsSuccessor(names, last);
    var y := NextN(names, x, 1);
    assert y == NextIn(names, x);
    assert y == names[0];
    NextNCompose(names, names[k], a, 1);
    assert NextN(names, names[k], a + 1) == y;
    NextNAdvances(names, 0, k);
    NextNCompose(names, names[k], a + 1, k);
    assert last - k + 1 + k == |names|;
  }

  /** The five theme names differ (their second letters already do). */
  lemma ThemeNamesDistinct()
    ensures Distinct(ThemeNames)
  {
    forall i, j | 0 <= i < j < |ThemeNames|
      ensures ThemeNames[i] != ThemeNames[j]
    {
      assert ThemeNames[i][1] != ThemeNames[j][1];
    }
  }

  /** `next()` always lands on a known theme, and from an unknown one on the default. */
  lemma NextIsKnown(current: string)
    ensures NextTheme(current) in ThemeNames
    ensures current !in ThemeNames ==> NextTheme(current) == "default"
  {
    NextInIsListed(ThemeNames, current);
  }

  /** From each theme `next()` goes to the following one; `cyber` wraps to `default`. */
  lemma NextIsSuccessor(k: nat)
    requires k < |ThemeNames|
    ensures NextTheme(ThemeNames[k]) == ThemeNames[(k + 1) % |ThemeNames|]
  {
    ThemeNamesDistinct();
    NextInIsSuccessor(ThemeNames, k);
  }

  /** Pressing `next()` once per theme returns to the theme one started from. */
  lemma NextCycles(current: string)
    requires current in ThemeNames
    ensures NextN(ThemeNames, current, |ThemeNames|) == current
  {
    ThemeNamesDistinct();
    IndexOfSpec(ThemeNames, current);
    var k := IndexOf(ThemeNames, current);
    NextNCycles(ThemeNames, k, |ThemeNames|);
  }

  /** Starting from the default, the first four presses visit every other theme in list order. */
  lemma NextVisitsAll()
    ensures forall j :: 0 < j < |ThemeNames| ==> NextN(ThemeNames, "default", j) == ThemeNames[j]
  {
    ThemeNamesDistinct();
    forall j | 0 < j < |ThemeNames|
      ensures NextN(ThemeNames, "default", j) == ThemeNames[j]
    {
      NextNAdvances(ThemeNames, 0, j);
    }
  }
}
