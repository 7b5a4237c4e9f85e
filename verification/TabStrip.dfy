/** The capture tabs: one tab for each enabled module, in the order of the module model
    whatever the order of enabling, or a single placeholder. */
module TabStrip {

  datatype Tab = Placeholder | View(of: nat)

  /** The modules in model order, and those that have their place elsewhere. */
  datatype Modules = Modules(order: seq<nat>, system: set<nat>)

  /** The tabs, the counter of module tabs, and the modules a view was created for. */
  datatype Bar = Bar(tabs: seq<Tab>, total: int, views: set<nat>)

  // ---------------------------------------------------------------- the strip as it should be

  /** The tabs of the shown modules, in order. */
  function Strip(order: seq<nat>, shown: set<nat>): (r: seq<Tab>)
    ensures |r| <= |order|
  {
    if order == [] then [] else
      Strip(order[..|order| - 1], shown) + if order[|order| - 1] in shown then [View(order[|order| - 1])] else []
  }

  ghost predicate Distinct(order: seq<nat>) {
    forall i, j :: 0 <= i < j < |order| ==> order[i] != order[j]
  }

  lemma {:induction false} StripHas(order: seq<nat>, shown: set<nat>, m: nat)
    ensures View(m) in Strip(order, shown) <==> m in order && m in shown
    ensures Placeholder !in Strip(order, shown)
  {
    if order != [] {
      StripHas(order[..|order| - 1], shown, m);
      assert order == order[..|order| - 1] + [order[|order| - 1]];
    }
  }

  lemma {:induction false} StripConcat(a: seq<nat>, b: seq<nat>, shown: set<nat>)
    ensures Strip(a + b, shown) == Strip(a, shown) + Strip(b, shown)
  {
    if b == [] {
      assert a + b == a;
    } else {
      StripConcat(a, b[..|b| - 1], shown);
      assert (a + b)[..|a + b| - 1] == a + b[..|b| - 1];
    }
  }

  /** Modules that are not in `order` do not matter. */
  lemma {:induction false} StripOnly(order: seq<nat>, shown: set<nat>, m: nat)
    requires m !in order
    ensures Strip(order, shown + {m}) == Strip(order, shown) == Strip(order, shown - {m})
  {
    if order != [] {
      StripOnly(order[..|order| - 1], shown, m);
    }
  }

  lemma StripAround(a: seq<nat>, m: nat, b: seq<nat>, shown: set<nat>)
    requires m !in a && m !in b
    ensures Strip(a + [m] + b, shown + {m}) == Strip(a, shown) + [View(m)] + Strip(b, shown)
    ensures Strip(a + [m] + b, shown - {m}) == Strip(a, shown) + Strip(b, shown)
  {
    assert (a + [m])[..|a|] == a;
    StripOnly(a, shown, m);
    StripOnly(b, shown, m);
    StripConcat(a + [m], b, shown + {m});
    StripConcat(a + [m], b, shown - {m});
    assert Strip(a, shown) + [] == Strip(a, shown);
  }

  /** Showing the module at place `k`: its tab goes after those of the modules before it. */
  lemma StripInsert(order: seq<nat>, shown: set<nat>, k: nat)
    requires Distinct(order) && k < |order|
    ensures var m := order[k]; var before, after := Strip(order[..k], shown), Strip(order[k + 1..], shown);
      && Strip(order, shown + {m}) == before + [View(m)] + after
      && Strip(order, shown - {m}) == before + after
  {
    assert order == order[..k] + [order[k]] + order[k + 1..];
    StripAround(order[..k], order[k], order[k + 1..], shown);
  }

  /** The tabs show exactly `shown`, in order, or the placeholder; the counter counts. */
  ghost predicate Shows(mods: Modules, bar: Bar, shown: set<nat>) {
    && Distinct(mods.order) && shown <= bar.views
    && (forall v :: v in bar.views ==> v in mods.order && v !in mods.system)
    && var strip := Strip(mods.order, shown);
       bar.total == |strip| && bar.tabs == if strip == [] then [Placeholder] else strip
  }

  // ---------------------------------------------------------------- the operations

  /** The first place of `t`, or -1. */
  function IndexOf(tabs: seq<Tab>, t: Tab): (i: int)
    ensures -1 <= i < |tabs| && (i == -1 <==> t !in tabs) && (i >= 0 ==> tabs[i] == t)
  {
    if tabs == [] then -1
    else if tabs[0] == t then 0
    else
      var i := IndexOf(tabs[1..], t);
      if i == -1 then -1 else i + 1
  }

  function TabIndex(bar: Bar, m: nat): (i: int)
    ensures -1 <= i < |bar.tabs|
  {
    if m !in bar.views then -1 else IndexOf(bar.tabs, View(m))
  }

  function Without(tabs: seq<Tab>, i: nat): seq<Tab> {
    if i < |tabs| then tabs[..i] + tabs[i + 1..] else tabs
  }

  /** A tab put in beyond the end is the last one. */
  function InsertAt(tabs: seq<Tab>, i: nat, t: Tab): seq<Tab> {
    if i <= |tabs| then tabs[..i] + [t] + tabs[i..] else tabs + [t]
  }

  function Removed(bar: Bar, m: nat): Bar {
    var i := TabIndex(bar, m);
    if i == -1 then bar else
      var tabs := Without(bar.tabs, i);
      bar.(tabs := if bar.total - 1 == 0 then tabs + [Placeholder] else tabs, total := bar.total - 1)
  }

  /** Where the loop over the modules from `k` on puts the tab of `m`, having passed `index`
      tabs; it may not come to `m`. */
  function Position(mods: Modules, bar: Bar, m: nat, k: nat, index: nat): (r: int)
    requires k <= |mods.order|
    decreases |mods.order| - k
  {
    if k == |mods.order| then -1
    else if mods.order[k] in mods.system then Position(mods, bar, m, k + 1, index)
    else if mods.order[k] == m then index
    else Position(mods, bar, m, k + 1, if TabIndex(bar, mods.order[k]) != -1 then index + 1 else index)
  }

  function Added(mods: Modules, bar: Bar, m: nat): Bar {
    if m !in bar.views then bar else
      var b := Removed(bar, m);
      var c := if b.total == 0 then b.(tabs := Without(b.tabs, 0)) else b;
      var i := Position(mods, c, m, 0, 0);
      c.(tabs := if i >= 0 then InsertAt(c.tabs, i, View(m)) else c.tabs, total := c.total + 1)
  }

  /** A module is enabled or disabled; system modules are not shown here. */
  function Changed(mods: Modules, bar: Bar, m: nat, enabled: bool): Bar {
    if m in mods.system then bar else if enabled then Added(mods, bar, m) else Removed(bar, m)
  }

  // ---------------------------------------------------------------- what they keep

  lemma {:induction false} IndexOfIs(a: seq<Tab>, t: Tab, b: seq<Tab>)
    requires t !in a
    ensures IndexOf(a + [t] + b, t) == |a|
  {
    if a != [] {
      assert (a + [t] + b)[1..] == a[1..] + [t] + b;
      IndexOfIs(a[1..], t, b);
    }
  }

  lemma WithoutMiddle(a: seq<Tab>, t: Tab, b: seq<Tab>)
    ensures Without(a + [t] + b, |a|) == a + b
  {
  }

  /** The tab of a shown module is where its turn is; without it the others are left. */
  lemma TabOfShown(order: seq<nat>, shown: set<nat>, k: nat)
    requires Distinct(order) && k < |order| && order[k] in shown
    ensures var strip, i := Strip(order, shown), |Strip(order[..k], shown)|;
      && IndexOf(strip, View(order[k])) == i < |strip| && Without(strip, i) == Strip(order, shown - {order[k]})
      && |Strip(order, shown - {order[k]})| == |strip| - 1
  {
    var m := order[k];
    var before, after := Strip(order[..k], shown), Strip(order[k + 1..], shown);
    assert shown + {m} == shown;
    StripInsert(order, shown, k);
    StripHas(order[..k], shown, m);
    IndexOfIs(before, View(m), after);
    WithoutMiddle(before, View(m), after);
  }

  lemma RemoveShown(mods: Modules, bar: Bar, shown: set<nat>, k: nat)
    requires Shows(mods, bar, shown) && k < |mods.order| && mods.order[k] in shown
    ensures Shows(mods, Removed(bar, mods.order[k]), shown - {mods.order[k]})
  {
    TabOfShown(mods.order, shown, k);
    assert TabIndex(bar, mods.order[k]) == |Strip(mods.order[..k], shown)|;
  }

  lemma RemoveAbsent(mods: Modules, bar: Bar, shown: set<nat>, m: nat)
    requires Shows(mods, bar, shown) && m !in shown
    ensures Removed(bar, m) == bar
  {
    StripHas(mods.order, shown, m);
  }

  lemma PlaceOf(order: seq<nat>, m: nat) returns (k: nat)
    requires m in order
    ensures k < |order| && order[k] == m
  {
    k :| 0 <= k < |order| && order[k] == m;
  }

  /** Removing a module's tab, or one that is not there. */
  lemma RemoveShows(mods: Modules, bar: Bar, shown: set<nat>, m: nat)
    requires Shows(mods, bar, shown)
    ensures Shows(mods, Removed(bar, m), shown - {m})
  {
    if m in shown {
      var k := PlaceOf(mods.order, m);
      RemoveShown(mods, bar, shown, k);
    } else {
      RemoveAbsent(mods, bar, shown, m);
      assert shown - {m} == shown;
    }
  }

  lemma OneMoreInStrip(order: seq<nat>, shown: set<nat>, k: nat)
    requires k < |order|
    ensures |Strip(order[..k + 1], shown)| == |Strip(order[..k], shown)| + if order[k] in shown then 1 else 0
  {
    assert order[..k + 1][..k] == order[..k];
  }

  /** The loop counts the shown modules before the new one. */
  lemma {:induction false} PositionCounts(mods: Modules, bar: Bar, shown: set<nat>, k: nat, at: nat)
    requires k <= at < |mods.order| && Distinct(mods.order) && mods.order[at] !in mods.system
    requires bar.tabs == Strip(mods.order, shown) && shown <= bar.views
    requires forall v :: v in bar.views ==> v !in mods.system
    ensures Position(mods, bar, mods.order[at], k, |Strip(mods.order[..k], shown)|) == |Strip(mods.order[..at], shown)|
    decreases at - k
  {
    if k < at {
      StripHas(mods.order, shown, mods.order[k]);
      OneMoreInStrip(mods.order, shown, k);
      PositionCounts(mods, bar, shown, k + 1, at);
    }
  }

  /** Inserting the tab of a module that is not shown where the loop puts it. */
  lemma InsertKeepsOrder(mods: Modules, bar: Bar, shown: set<nat>, k: nat)
    requires Distinct(mods.order) && k < |mods.order| && mods.order[k] !in mods.system && mods.order[k] !in shown
    requires bar.tabs == Strip(mods.order, shown) && shown <= bar.views
    requires forall v :: v in bar.views ==> v !in mods.system
    ensures var i, m := Position(mods, bar, mods.order[k], 0, 0), mods.order[k];
      && i >= 0 && InsertAt(bar.tabs, i, View(m)) == Strip(mods.order, shown + {m})
      && |Strip(mods.order, shown + {m})| == |bar.tabs| + 1
  {
    var m := mods.order[k];
    PositionCounts(mods, bar, shown, 0, k);
    assert mods.order[..0] == [] && shown - {m} == shown;
    StripInsert(mods.order, shown, k);
    var before, after := Strip(mods.order[..k], shown), Strip(mods.order[k + 1..], shown);
    assert InsertAt(before + after, |before|, View(m)) == before + [View(m)] + after;
  }

  /** Showing a module, whether or not it is shown already. */
  lemma AddShows(mods: Modules, bar: Bar, shown: set<nat>, m: nat)
    requires Shows(mods, bar, shown) && m in bar.views
    ensures Shows(mods, Added(mods, bar, m), shown + {m})
  {
    RemoveShows(mods, bar, shown, m);
    var rest := shown - {m};
    var b := Removed(bar, m);
    var c := if b.total == 0 then b.(tabs := Without(b.tabs, 0)) else b;
    assert c.tabs == Strip(mods.order, rest);
    var k := PlaceOf(mods.order, m);
    InsertKeepsOrder(mods, c, rest, k);
    assert rest + {m} == shown + {m};
  }

  /** The modules shown after a run of status changes. */
  function ShownAfter(mods: Modules, views: set<nat>, shown: set<nat>, changes: seq<(nat, bool)>): set<nat> {
    if changes == [] then shown else
      var before := ShownAfter(mods, views, shown, changes[..|changes| - 1]);
      var (m, enabled) := changes[|changes| - 1];
      if m in mods.system || m !in views then before else if enabled then before + {m} else before - {m}
  }

  function RunChanges(mods: Modules, bar: Bar, changes: seq<(nat, bool)>): Bar {
    if changes == [] then bar else
      Changed(mods, RunChanges(mods, bar, changes[..|changes| - 1]), changes[|changes| - 1].0, changes[|changes| - 1].1)
  }

  lemma RemoveOfUnknown(mods: Modules, bar: Bar, m: nat)
    requires m !in bar.views
    ensures Removed(bar, m) == bar && Added(mods, bar, m) == bar
  {
  }

  /** After any run of enabling and disabling, of whatever modules in whatever order, the
      strip is exactly the enabled modules' tabs in model order, each once, or exactly the
      placeholder; and the counter is the number of module tabs. */
  lemma {:induction false} StripIsOrdered(mods: Modules, bar: Bar, shown: set<nat>, changes: seq<(nat, bool)>)
    requires Shows(mods, bar, shown)
    ensures RunChanges(mods, bar, changes).views == bar.views
    ensures Shows(mods, RunChanges(mods, bar, changes), ShownAfter(mods, bar.views, shown, changes))
  {
    if changes != [] {
      var front := changes[..|changes| - 1];
      var (m, enabled) := changes[|changes| - 1];
      var now, before := RunChanges(mods, bar, front), ShownAfter(mods, bar.views, shown, front);
      StripIsOrdered(mods, bar, shown, front);
      if m !in bar.views {
        RemoveOfUnknown(mods, now, m);
      } else if enabled {
        AddShows(mods, now, before, m);
      } else {
        RemoveShows(mods, now, before, m);
      }
    }
  }

  // ---------------------------------------------------------------- the set-up

  /** The loop over the first `n` modules: a view for each, and a tab for the enabled. */
  function SetUp(mods: Modules, enabled: set<nat>, n: nat): Bar
    requires n <= |mods.order|
  {
    if n == 0 then Bar([Placeholder], 0, {}) else
      var before := SetUp(mods, enabled, n - 1);
      var m := mods.order[n - 1];
      if m in mods.system then before else
        var viewed := before.(views := before.views + {m});
        if m in enabled then Added(mods, viewed, m) else viewed
  }

  function Enabled(mods: Modules, enabled: set<nat>, n: nat): set<nat>
    requires n <= |mods.order|
  {
    if n == 0 then {} else
      var m := mods.order[n - 1];
      Enabled(mods, enabled, n - 1) + if m !in mods.system && m in enabled then {m} else {}
  }

  lemma InPrefix(order: seq<nat>, n: nat, m: nat)
    requires 0 < n <= |order|
    ensures m in order[..n] <==> m in order[..n - 1] || m == order[n - 1]
  {
    assert order[..n] == order[..n - 1] + [order[n - 1]];
  }

  lemma {:induction false} EnabledHas(mods: Modules, enabled: set<nat>, n: nat, m: nat)
    requires n <= |mods.order|
    ensures m in Enabled(mods, enabled, n) <==> m in mods.order[..n] && m !in mods.system && m in enabled
  {
    if n > 0 {
      EnabledHas(mods, enabled, n - 1, m);
      InPrefix(mods.order, n, m);
    }
  }

  lemma OneMoreModule(mods: Modules, enabled: set<nat>, n: nat)
    requires n < |mods.order| && Shows(mods, SetUp(mods, enabled, n), Enabled(mods, enabled, n))
    ensures Shows(mods, SetUp(mods, enabled, n + 1), Enabled(mods, enabled, n + 1))
  {
    var m := mods.order[n];
    var before, shown := SetUp(mods, enabled, n), Enabled(mods, enabled, n);
    if m !in mods.system {
      var viewed := before.(views := before.views + {m});
      assert Shows(mods, viewed, shown);
      if m in enabled {
        AddShows(mods, viewed, shown, m);
      } else {
        assert shown + {} == shown;
      }
    } else {
      assert shown + {} == shown;
    }
  }

  /** From the start the strip shows the enabled modules. */
  lemma {:induction false} SetUpShows(mods: Modules, enabled: set<nat>, n: nat)
    requires n <= |mods.order| && Distinct(mods.order)
    ensures Shows(mods, SetUp(mods, enabled, n), Enabled(mods, enabled, n))
  {
    if n == 0 {
      StripOfNone(mods.order);
    } else {
      SetUpShows(mods, enabled, n - 1);
      OneMoreModule(mods, enabled, n - 1);
    }
  }

  /** So a module has a tab after set-up exactly when it is enabled and no system module, and
      the placeholder is there exactly when no module has one. */
  lemma SetUpShowsExactlyTheEnabled(mods: Modules, enabled: set<nat>, m: nat)
    requires Distinct(mods.order)
    ensures var tabs := SetUp(mods, enabled, |mods.order|).tabs;
      && (View(m) in tabs <==> m in mods.order && m !in mods.system && m in enabled)
      && (Placeholder in tabs <==> tabs == [Placeholder])
  {
    var n := |mods.order|;
    SetUpShows(mods, enabled, n);
    EnabledHas(mods, enabled, n, m);
    assert mods.order[..n] == mods.order;
    StripHas(mods.order, Enabled(mods, enabled, n), m);
  }

  lemma AddKeepsViews(mods: Modules, bar: Bar, m: nat)
    ensures Added(mods, bar, m).views == bar.views
  {
  }

  lemma ViewsStep(mods: Modules, enabled: set<nat>, n: nat)
    requires n < |mods.order|
    ensures SetUp(mods, enabled, n + 1).views ==
            SetUp(mods, enabled, n).views + if mods.order[n] in mods.system then {} else {mods.order[n]}
  {
    var before := SetUp(mods, enabled, n);
    AddKeepsViews(mods, before.(views := before.views + {mods.order[n]}), mods.order[n]);
  }

  /** Exactly the modules that are not system modules have a view. */
  lemma {:induction false} SetUpViews(mods: Modules, enabled: set<nat>, n: nat, m: nat)
    requires n <= |mods.order|
    ensures m in SetUp(mods, enabled, n).views <==> m in mods.order[..n] && m !in mods.system
  {
    if n > 0 {
      SetUpViews(mods, enabled, n - 1, m);
      InPrefix(mods.order, n, m);
      ViewsStep(mods, enabled, n - 1);
    }
  }

  lemma {:induction false} StripOfNone(order: seq<nat>)
    ensures Strip(order, {}) == []
  {
    if order != [] {
      StripOfNone(order[..|order| - 1]);
    }
  }

  // ---------------------------------------------------------------- the tabs, read off the changes

  /** Nothing happens to `m` from change `k` on. */
  ghost predicate NoneFrom(changes: seq<(nat, bool)>, k: nat, m: nat) {
    forall j :: k <= j < |changes| ==> changes[j].0 != m
  }

  /** The last change of `m` enabled it; without any, it was enabled from the start. */
  ghost predicate IsOn(changes: seq<(nat, bool)>, initially: bool, m: nat) {
    || (initially && NoneFrom(changes, 0, m))
    || exists k :: 0 <= k < |changes| && changes[k] == (m, true) && NoneFrom(changes, k + 1, m)
  }

  lemma NoneFromStep(changes: seq<(nat, bool)>, k: nat, m: nat)
    requires k < |changes|
    ensures NoneFrom(changes, k, m) <==> NoneFrom(changes[..|changes| - 1], k, m) && changes[|changes| - 1].0 != m
  {
    assert forall j :: 0 <= j < |changes| - 1 ==> changes[..|changes| - 1][j] == changes[j];
  }

  lemma NoneBehind(changes: seq<(nat, bool)>, m: nat)
    ensures NoneFrom(changes, |changes|, m)
  {
  }

  lemma IsOnStep(changes: seq<(nat, bool)>, initially: bool, m: nat)
    requires changes != []
    ensures var n := |changes| - 1;
            IsOn(changes, initially, m) <==>
            if changes[n].0 == m then changes[n].1 else IsOn(changes[..n], initially, m)
  {
    hide NoneFrom;
    var n := |changes| - 1;
    NoneBehind(changes, m);
    NoneFromStep(changes, 0, m);
    forall k | 0 <= k < n
      ensures changes[..n][k] == changes[k]
      ensures NoneFrom(changes, k + 1, m) <==> NoneFrom(changes[..n], k + 1, m) && changes[n].0 != m
    {
      NoneFromStep(changes, k + 1, m);
    }
    assert changes[n] == (changes[n].0, changes[n].1);
  }

  lemma {:induction false} ShownIffOn(mods: Modules, views: set<nat>, shown: set<nat>, changes: seq<(nat, bool)>, m: nat)
    requires m in views && m !in mods.system
    ensures m in ShownAfter(mods, views, shown, changes) <==> IsOn(changes, m in shown, m)
  {
    if changes != [] {
      ShownIffOn(mods, views, shown, changes[..|changes| - 1], m);
      IsOnStep(changes, m in shown, m);
    }
  }

  lemma {:induction false} OthersNeverShown(mods: Modules, views: set<nat>, shown: set<nat>,
                                            changes: seq<(nat, bool)>, m: nat)
    requires m !in shown && (m !in views || m in mods.system)
    ensures m !in ShownAfter(mods, views, shown, changes)
  {
    if changes != [] {
      OthersNeverShown(mods, views, shown, changes[..|changes| - 1], m);
    }
  }

  /** From set-up on, whatever is enabled and disabled in whatever order: a module has a tab
      exactly when it is listed, is no system module, and was enabled last; the placeholder
      stands alone, and exactly when no module has a tab. */
  lemma TabsAreThoseEnabledLast(mods: Modules, enabled: set<nat>, changes: seq<(nat, bool)>, m: nat)
    requires Distinct(mods.order)
    ensures var tabs := RunChanges(mods, SetUp(mods, enabled, |mods.order|), changes).tabs;
            && (View(m) in tabs <==> m in mods.order && m !in mods.system && IsOn(changes, m in enabled, m))
            && (Placeholder in tabs <==> tabs == [Placeholder]) && tabs != []
  {
    var n, start := |mods.order|, SetUp(mods, enabled, |mods.order|);
    var shown := Enabled(mods, enabled, n);
    SetUpShows(mods, enabled, n);
    StripIsOrdered(mods, start, shown, changes);
    StripHas(mods.order, ShownAfter(mods, start.views, shown, changes), m);
    SetUpViews(mods, enabled, n, m);
    EnabledHas(mods, enabled, n, m);
    assert mods.order[..n] == mods.order;
    if m in start.views && m !in mods.system {
      ShownIffOn(mods, start.views, shown, changes, m);
    } else {
      OthersNeverShown(mods, start.views, shown, changes, m);
    }
  }

  /** Where in the order the `i`th tab of the strip comes from. */
  lemma {:induction false} PlaceInOrder(order: seq<nat>, shown: set<nat>, i: nat) returns (p: nat)
    requires i < |Strip(order, shown)|
    ensures p < |order| && Strip(order, shown)[i] == View(order[p])
    ensures i < |Strip(order, shown)| - 1 ==> p < |order| - 1
  {
    var n := |order| - 1;
    if i < |Strip(order[..n], shown)| {
      p := PlaceInOrder(order[..n], shown, i);
    } else {
      p := n;
    }
  }

  lemma {:induction false} StripFollowsOrder(order: seq<nat>, shown: set<nat>, i: nat, j: nat, p: nat, q: nat)
    requires Distinct(order) && i < j < |Strip(order, shown)| && p < |order| && q < |order|
    requires Strip(order, shown)[i] == View(order[p]) && Strip(order, shown)[j] == View(order[q])
    ensures p < q
  {
    var n := |order| - 1;
    var front := Strip(order[..n], shown);
    assert front[i] == View(order[p]);
    var k := PlaceInOrder(order[..n], shown, i);
    assert order[..n][k] == order[k] && k == p;
    if j < |front| {
      var l := PlaceInOrder(order[..n], shown, j);
      assert order[..n][l] == order[l] && l == q;
      StripFollowsOrder(order[..n], shown, i, j, p, q);
    }
  }

  /** The tabs come in the order of the modules, each module's once; and the counter counts
      those that are not the placeholder. */
  lemma TabsFollowTheModules(mods: Modules, enabled: set<nat>, changes: seq<(nat, bool)>)
    requires Distinct(mods.order)
    ensures var bar := RunChanges(mods, SetUp(mods, enabled, |mods.order|), changes);
            && bar.total == (if bar.tabs == [Placeholder] then 0 else |bar.tabs|)
            && forall i, j, p, q | 0 <= i < j < |bar.tabs| && 0 <= p < |mods.order| && 0 <= q < |mods.order| ::
                 (bar.tabs[i] == View(mods.order[p]) && bar.tabs[j] == View(mods.order[q])) ==> p < q
  {
    var n, start := |mods.order|, SetUp(mods, enabled, |mods.order|);
    var shown := Enabled(mods, enabled, n);
    SetUpShows(mods, enabled, n);
    StripIsOrdered(mods, start, shown, changes);
    var now := ShownAfter(mods, start.views, shown, changes);
    var bar := RunChanges(mods, start, changes);
    StripHas(mods.order, now, 0);
    forall i, j, p, q | 0 <= i < j < |bar.tabs| && 0 <= p < |mods.order| && 0 <= q < |mods.order|
                        && bar.tabs[i] == View(mods.order[p]) && bar.tabs[j] == View(mods.order[q])
      ensures p < q
    {
      StripFollowsOrder(mods.order, now, i, j, p, q);
    }
  }

  // ---------------------------------------------------------------- the widget

  class CaptureTabWidget {
    const modules: Modules
    var tabs: seq<Tab>
    var totalModuleViewTabs: int
    var moduleViews: set<nat>

    ghost function Abs(): Bar
      reads this
    {
      Bar(tabs, totalModuleViewTabs, moduleViews)
    }

    /** Construction and `SetModels`. */
    constructor (modules: Modules, enabled: set<nat>)
      ensures this.modules == modules && Abs() == SetUp(modules, enabled, |modules.order|)
    {
      this.modules := modules;
      tabs, totalModuleViewTabs, moduleViews := [Placeholder], 0, {};
      new;
      var i := 0;
      while i < |modules.order|
        invariant i <= |modules.order| && Abs() == SetUp(modules, enabled, i)
      {
        var m := modules.order[i];
        if m !in modules.system {
          moduleViews := moduleViews + {m};
          if m in enabled {
            AddModuleView(m);
          }
        }
        i := i + 1;
      }
    }

    method GetTabIndexForModule(m: nat) returns (index: int)
      ensures index == TabIndex(Abs(), m)
    {
      if m !in moduleViews {
        return -1;
      }
      var tab := 0;
      while tab < |tabs|
        invariant tab <= |tabs| && View(m) !in tabs[..tab]
      {
        if tabs[tab] == View(m) {
          assert tab == IndexOf(tabs, View(m)) by {
            assert tabs == tabs[..tab] + [View(m)] + tabs[tab + 1..];
            IndexOfIs(tabs[..tab], View(m), tabs[tab + 1..]);
          }
          return tab;
        }
        tab := tab + 1;
      }
      return -1;
    }

    method RemoveModuleView(m: nat)
      modifies this`tabs, this`totalModuleViewTabs
      ensures Abs() == Removed(old(Abs()), m)
    {
      var index := GetTabIndexForModule(m);
      if index == -1 {
        return;
      }
      tabs := tabs[..index] + tabs[index + 1..];
      totalModuleViewTabs := totalModuleViewTabs - 1;
      if totalModuleViewTabs == 0 {
        tabs := tabs + [Placeholder];
      }
    }

    /** The loop that finds where the tab of `m` goes, and puts it there. */
    method InsertInOrder(m: nat)
      modifies this`tabs
      ensures var i := Position(modules, old(Abs()), m, 0, 0);
        tabs == if i >= 0 then InsertAt(old(tabs), i, View(m)) else old(tabs)
    {
      var insertionIndex := 0;
      var k := 0;
      while k < |modules.order|
        invariant k <= |modules.order| && insertionIndex >= 0 && tabs == old(tabs)
        invariant Position(modules, old(Abs()), m, 0, 0) == Position(modules, old(Abs()), m, k, insertionIndex)
      {
        var module_ := modules.order[k];
        k := k + 1;
        if module_ in modules.system {
          continue;
        }
        if module_ == m {
          tabs := InsertAt(tabs, insertionIndex, View(m));
          return;
        }
        var index := GetTabIndexForModule(module_);
        if index != -1 {
          insertionIndex := insertionIndex + 1;
        }
      }
    }

    method AddModuleView(m: nat)
      modifies this`tabs, this`totalModuleViewTabs
      ensures Abs() == Added(modules, old(Abs()), m)
    {
      if m !in moduleViews {
        return;
      }
      RemoveModuleView(m);
      if totalModuleViewTabs == 0 {
        tabs := Without(tabs, 0);
      }
      InsertInOrder(m);
      totalModuleViewTabs := totalModuleViewTabs + 1;
    }

    method OnModuleStatusChanged(m: nat, isEnabled: bool)
      modifies this`tabs, this`totalModuleViewTabs
      ensures Abs() == Changed(modules, old(Abs()), m, isEnabled)
    {
      if m in modules.system {
        return;
      }
      if isEnabled {
        AddModuleView(m);
        return;
      }
      RemoveModuleView(m);
    }
  }
}
