/** The application blocklist of the developer panel: per-platform lists kept in a settings
    file, merged with the defaults that are shipped, less those the user removed. */
module BlocklistModel {
  import opened Wrappers

  datatype Platform = Windows | Linux

  /** One value for each platform. */
  datatype Per<+T> = Per(windows: T, linux: T) {
    function At(p: Platform): T {
      if p.Windows? then windows else linux
    }
  }

  function With<T>(m: Per<T>, p: Platform, v: T): Per<T> {
    if p.Windows? then m.(windows := v) else m.(linux := v)
  }

  /** The settings file. Up to version 1 there was one list for all platforms, which later
      versions leave in place. A missing version counts as 1, a missing array as empty. */
  datatype Settings = Settings(version: Option<int>, hasBlocklist: bool, flat: seq<string>,
                               lists: Per<seq<string>>, removed: Per<set<string>>)

  /** The model; there is no platform while nothing is connected. */
  datatype Model = Model(platform: Option<Platform>, lists: Per<seq<string>>,
                         defaults: Per<seq<string>>, removed: Per<set<string>>)

  datatype State = State(settings: Settings, model: Model)

  // ---------------------------------------------------------------- migration

  /** What follows the last dot of a file name. */
  function Suffix(name: string): string {
    if name == [] || name[|name| - 1] == '/' then []
    else if name[|name| - 1] == '.' then []
    else if HasDot(name[..|name| - 1]) then Suffix(name[..|name| - 1]) + [name[|name| - 1]]
    else []
  }

  predicate HasDot(name: string) {
    name != [] && name[|name| - 1] != '/' && (name[|name| - 1] == '.' || HasDot(name[..|name| - 1]))
  }

  /** Executables are taken for Windows applications, all else for Linux ones. */
  function PlatformOf(name: string): Platform {
    if Suffix(name) == "exe" then Windows else Linux
  }

  lemma {:induction false} HasDotIs(stem: string, name: string)
    requires '.' !in name && '/' !in name
    ensures HasDot(stem + "." + name) && Suffix(stem + "." + name) == name
  {
    var whole := stem + "." + name;
    if name == [] {
      assert whole[|whole| - 1] == '.';
    } else {
      HasDotIs(stem, name[..|name| - 1]);
      assert whole[..|whole| - 1] == stem + "." + name[..|name| - 1] && whole[|whole| - 1] == name[|name| - 1];
    }
  }

  lemma {:induction false} SuffixIs(name: string)
    requires HasDot(name)
    ensures |Suffix(name)| < |name| && name == name[..|name| - |Suffix(name)| - 1] + "." + Suffix(name)
  {
    var front := name[..|name| - 1];
    if name[|name| - 1] == '.' {
      assert name == front + "." + [];
    } else {
      SuffixIs(front);
      var k := |front| - |Suffix(front)| - 1;
      assert front[..k] == name[..k] && name == front + [name[|name| - 1]];
    }
  }

  lemma NoDotNoSuffix(name: string)
    requires !HasDot(name)
    ensures Suffix(name) == []
  {
  }

  /** A name is taken for a Windows application exactly when it ends in ".exe". */
  lemma WindowsIffExe(name: string)
    ensures PlatformOf(name) == Windows <==> exists stem :: name == stem + ".exe"
  {
    if HasDot(name) {
      SuffixIs(name);
    } else {
      NoDotNoSuffix(name);
    }
    forall stem | name == stem + ".exe" ensures PlatformOf(name) == Windows {
      HasDotIs(stem, "exe");
      assert stem + ".exe" == stem + "." + "exe";
    }
    if PlatformOf(name) == Windows {
      assert name == name[..|name| - 4] + ".exe";
    }
  }

  /** The names of `flat` that belong to `p`, in order. */
  function Ours(flat: seq<string>, p: Platform): seq<string> {
    if flat == [] then [] else
      Ours(flat[..|flat| - 1], p) + if PlatformOf(flat[|flat| - 1]) == p then [flat[|flat| - 1]] else []
  }

  /** Migration moves the name after those of its platform, and leaves the other list alone. */
  lemma OursSnoc(flat: seq<string>, name: string, p: Platform)
    ensures Ours(flat + [name], p) == if PlatformOf(name) == p then Ours(flat, p) + [name] else Ours(flat, p)
  {
    assert (flat + [name])[..|flat|] == flat;
  }

  lemma {:induction false} OursJoin(a: seq<string>, b: seq<string>, p: Platform)
    requires Ours([], p) == []
    ensures Ours(a + b, p) == Ours(a, p) + Ours(b, p)
  {
    hide Ours, PlatformOf;
    if b == [] {
      assert a + b == a;
    } else {
      var front, last := b[..|b| - 1], b[|b| - 1];
      OursJoin(a, front, p);
      assert a + b == (a + front) + [last] && b == front + [last];
      OursSnoc(a + front, last, p);
      OursSnoc(front, last, p);
    }
  }

  /** Migration goes name by name: of one name it makes that name, or nothing, and of two
      lists, one after the other, what it makes of each. */
  lemma MigrationIsNameByName(a: seq<string>, b: seq<string>, name: string, p: Platform)
    ensures Ours(a + b, p) == Ours(a, p) + Ours(b, p)
    ensures Ours([name], p) == if PlatformOf(name) == p then [name] else []
  {
    assert [name][..0] == [];
    OursJoin(a, b, p);
  }

  lemma BagSnoc(s: seq<string>, x: string)
    ensures multiset(s + [x]) == multiset(s) + multiset{x}
  {
  }

  lemma BagOfSplit(a: multiset<string>, b: multiset<string>, c: multiset<string>, x: multiset<string>)
    requires a + b == c
    ensures (a + x) + b == c + x && a + (b + x) == c + x
  {
  }

  /** Migration loses no name and repeats none. */
  lemma {:induction false} MigrationKeepsNames(flat: seq<string>)
    ensures multiset(Ours(flat, Windows)) + multiset(Ours(flat, Linux)) == multiset(flat)
  {
    if flat != [] {
      var front, name := flat[..|flat| - 1], flat[|flat| - 1];
      MigrationKeepsNames(front);
      assert flat == front + [name];
      OursSnoc(front, name, Windows);
      OursSnoc(front, name, Linux);
      BagSnoc(front, name);
      BagSnoc(Ours(front, PlatformOf(name)), name);
      BagOfSplit(multiset(Ours(front, Windows)), multiset(Ours(front, Linux)), multiset(front), multiset{name});
    }
  }

  // ---------------------------------------------------------------- defaults

  /** `list` with the defaults appended that were not removed and are not in it. */
  function Merged(list: seq<string>, defaults: seq<string>, removed: set<string>): seq<string> {
    if defaults == [] then list else
      var m := Merged(list, defaults[..|defaults| - 1], removed);
      var d := defaults[|defaults| - 1];
      if d in removed || d in m then m else m + [d]
  }

  /** Each default is in the list, or was removed by the user. */
  ghost predicate Covered(list: seq<string>, defaults: seq<string>, removed: set<string>) {
    forall i :: 0 <= i < |defaults| ==> defaults[i] in list || defaults[i] in removed
  }

  /** Merging keeps the list in front, covers all defaults, and brings in nothing else: no
      removed default, and no name twice. */
  lemma {:induction false} MergeCovers(list: seq<string>, defaults: seq<string>, removed: set<string>)
    ensures list <= Merged(list, defaults, removed) && Covered(Merged(list, defaults, removed), defaults, removed)
    ensures forall x :: x in Merged(list, defaults, removed) <==> x in list || (x in defaults && x !in removed)
  {
    if defaults != [] {
      var front, d := defaults[..|defaults| - 1], defaults[|defaults| - 1];
      MergeCovers(list, front, removed);
      assert defaults == front + [d];
      var m := Merged(list, front, removed);
      assert d in removed || d in m || (m + [d])[|m|] == d;
      forall i | 0 <= i < |defaults| ensures defaults[i] in Merged(list, defaults, removed) || defaults[i] in removed {
        if i < |front| {
          assert defaults[i] == front[i];
        }
      }
    }
  }

  /** Merging goes default by default: one is appended, once, if it is missing and was not
      removed, and of two lists of defaults the second is merged into what the first gives. */
  lemma {:induction false} MergeIsOneByOne(list: seq<string>, a: seq<string>, b: seq<string>, d: string,
                                           removed: set<string>)
    ensures Merged(list, a + b, removed) == Merged(Merged(list, a, removed), b, removed)
    ensures Merged(list, [d], removed) == if d in list || d in removed then list else list + [d]
  {
    assert [d][..0] == [];
    if b == [] {
      assert a + b == a;
    } else {
      MergeIsOneByOne(list, a, b[..|b| - 1], d, removed);
      assert (a + b)[..|a + b| - 1] == a + b[..|b| - 1];
    }
  }

  /** Merging changes nothing exactly when the list covers the defaults already. */
  lemma {:induction false} MergeIsIdleIff(list: seq<string>, defaults: seq<string>, removed: set<string>)
    ensures Merged(list, defaults, removed) == list <==> Covered(list, defaults, removed)
  {
    MergeCovers(list, defaults, removed);
    if Covered(list, defaults, removed) && defaults != [] {
      var front, d := defaults[..|defaults| - 1], defaults[|defaults| - 1];
      assert forall i :: 0 <= i < |front| ==> front[i] == defaults[i];
      MergeIsIdleIff(list, front, removed);
      assert defaults[|defaults| - 1] in list || d in removed;
    }
  }

  // ---------------------------------------------------------------- the operations

  const NOTHING: Per<seq<string>> := Per([], [])

  /** `Save`: the lists, the removed defaults, and the version they are kept in. */
  function Saved(st: State): State {
    st.(settings := Settings(Some(3), true, st.settings.flat, st.model.lists, st.model.removed))
  }

  predicate Migrates(s: Settings) {
    s.hasBlocklist && (s.version.None? || s.version.value <= 1)
  }

  function Migrated(s: Settings): Settings {
    if Migrates(s) then s.(version := Some(2), lists := Per(Ours(s.flat, Windows), Ours(s.flat, Linux))) else s
  }

  /** `Load`: the stored lists, migrated if they are old, with the defaults merged in. */
  function Loaded(shipped: Per<seq<string>>, st: State): State {
    var s := Migrated(st.settings);
    var base := if s.hasBlocklist then s.lists else NOTHING;
    State(s, Model(st.model.platform,
                   Per(Merged(base.windows, shipped.windows, s.removed.windows),
                       Merged(base.linux, shipped.linux, s.removed.linux)),
                   shipped, s.removed))
  }

  /** `AddApplication`, given whether an entry matches the trimmed name already. */
  function Added(st: State, name: string, matched: bool): State {
    if st.model.platform.None? || name == [] || matched then st else
      var p := st.model.platform.value;
      Saved(st.(model := st.model.(lists := With(st.model.lists, p, st.model.lists.At(p) + [name]))))
  }

  /** The removed rows that are defaults are remembered. */
  function Remembered(names: seq<string>, defaults: seq<string>): set<string> {
    set x | x in names && x in defaults
  }

  predicate InRange(m: Model, row: int, count: nat) {
    m.platform.Some? && 0 <= row && row + count <= |m.lists.At(m.platform.value)|
  }

  function WithoutRows(st: State, row: nat, count: nat): State
    requires InRange(st.model, row, count)
  {
    var p := st.model.platform.value;
    var list := st.model.lists.At(p);
    Saved(st.(model := st.model.(
                lists := With(st.model.lists, p, list[..row] + list[row + count..]),
                removed := With(st.model.removed, p, st.model.removed.At(p) +
                                Remembered(list[row..row + count], st.model.defaults.At(p))))))
  }

  lemma RowMovedUp(list: seq<string>, row: nat, i: nat)
    requires row + i < |list|
    ensures var now := list[..row] + list[row + i..];
      && now[row] == list[row + i] && now[..row] + now[row + 1..] == list[..row] + list[row + (i + 1)..]
      && list[row..row + (i + 1)] == list[row..row + i] + [now[row]]
  {
  }

  /** `setData`: a row is renamed; a default renamed away is not remembered. */
  function Edited(st: State, row: nat, name: string, matched: bool): State
    requires InRange(st.model, row, 1)
  {
    if name == [] || matched then st else
      var p := st.model.platform.value;
      Saved(st.(model := st.model.(lists := With(st.model.lists, p, st.model.lists.At(p)[row := name]))))
  }

  /** `RestoreDefaults`: forgets the removals on every platform, but resets the list of the
      current one only. */
  function Restored(st: State): State {
    var m := st.model;
    Saved(st.(model := m.(lists := if m.platform.None? then m.lists
                                   else With(m.lists, m.platform.value, m.defaults.At(m.platform.value)),
                          removed := Per({}, {}))))
  }

  datatype Op =
    | Load
    | SetPlatform(platform: Option<Platform>)
    | Add(name: string, matched: bool)
    | RemoveRows(row: nat, count: nat)
    | Edit(row: nat, name: string, matched: bool)
    | Restore

  /** One operation; rows out of range cannot be asked for. */
  function Step(shipped: Per<seq<string>>, st: State, op: Op): State {
    match op
    case Load => Loaded(shipped, st)
    case SetPlatform(p) => Loaded(shipped, st.(model := st.model.(platform := p)))
    case Add(name, matched) => Added(st, name, matched)
    case RemoveRows(row, count) => if InRange(st.model, row, count) then WithoutRows(st, row, count) else st
    case Edit(row, name, matched) => if InRange(st.model, row, 1) then Edited(st, row, name, matched) else st
    case Restore => Restored(st)
  }

  function Run(shipped: Per<seq<string>>, st: State, ops: seq<Op>): State {
    if ops == [] then st else Step(shipped, Run(shipped, st, ops[..|ops| - 1]), ops[|ops| - 1])
  }

  // ---------------------------------------------------------------- what each operation leaves

  /** Of `st`, at most the list and the removals of `p` have changed, to these; and what the
      model holds is in the settings, the old flat list left in place. */
  ghost predicate ChangesOnly(st: State, t: State, p: Platform, list: seq<string>, removed: set<string>) {
    && t.model.lists.At(p) == list && t.model.removed.At(p) == removed
    && (forall q :: q != p ==> t.model.lists.At(q) == st.model.lists.At(q)
                               && t.model.removed.At(q) == st.model.removed.At(q))
    && t.model.platform == st.model.platform && t.model.defaults == st.model.defaults
    && t.settings.version == Some(3) && t.settings.hasBlocklist && t.settings.flat == st.settings.flat
    && t.settings.lists == t.model.lists && t.settings.removed == t.model.removed
  }

  /** An application that is added is the last row of the current platform's list, in the
      model and in the settings, and still is after a load. */
  lemma AddedIsLast(shipped: Per<seq<string>>, st: State, p: Platform, name: string)
    requires st.model.platform == Some(p) && name != []
    ensures var t := Added(st, name, false);
            && ChangesOnly(st, t, p, st.model.lists.At(p) + [name], st.model.removed.At(p))
            && (Steady(shipped, st) ==> Loaded(shipped, t).model.lists.At(p) == st.model.lists.At(p) + [name])
  {
    if Steady(shipped, st) {
      AddKeeps(shipped, st, name, false);
    }
  }

  /** A row that is renamed is renamed, in the model and in the settings, and no other is. */
  lemma EditedIsRenamed(st: State, p: Platform, row: nat, name: string)
    requires st.model.platform == Some(p) && InRange(st.model, row, 1) && name != []
    ensures ChangesOnly(st, Edited(st, row, name, false), p, st.model.lists.At(p)[row := name], st.model.removed.At(p))
  {
  }

  /** Without a platform nothing is added; an empty name or one that some entry matches is
      neither added nor taken for a row. */
  lemma RefusedChangesNothing(st: State, row: nat, name: string, matched: bool)
    ensures st.model.platform.None? || name == [] || matched ==> Added(st, name, matched) == st
    ensures InRange(st.model, row, 1) && (name == [] || matched) ==> Edited(st, row, name, matched) == st
  {
  }

  /** The rows that are removed are, no others are, and the defaults among them are
      remembered with those remembered before. */
  lemma RowsAreRemoved(st: State, p: Platform, row: nat, count: nat) returns (removed: set<string>)
    requires st.model.platform == Some(p) && InRange(st.model, row, count)
    ensures var list := st.model.lists.At(p);
            && ChangesOnly(st, WithoutRows(st, row, count), p, list[..row] + list[row + count..], removed)
            && forall x :: x in removed <==> || x in st.model.removed.At(p)
                                             || (x in list[row..row + count] && x in st.model.defaults.At(p))
  {
    removed := WithoutRows(st, row, count).model.removed.At(p);
  }

  /** Restoring gives the current platform, if any, its defaults, leaves the others their
      lists, and forgets the removals of all. */
  lemma RestoredIsDefault(st: State, p: Platform)
    ensures var forgotten := st.(model := st.model.(removed := Per({}, {})));
            var list := if st.model.platform == Some(p) then st.model.defaults.At(p) else st.model.lists.At(p);
            st.model.platform in {None, Some(p)} ==> ChangesOnly(forgotten, Restored(st), p, list, {})
  {
  }

  /** What a load makes of the settings: of an old file, the names of the flat list, each
      with its platform, saved as version 2; of a newer one, its lists; of none, nothing;
      in each case with the defaults behind that are missing and were not removed. */
  lemma LoadsWhatIsStored(shipped: Per<seq<string>>, st: State, p: Platform)
    ensures var t := Loaded(shipped, st);
            var old_ := st.settings.hasBlocklist && (st.settings.version == None || st.settings.version.value <= 1);
            var stored := if !st.settings.hasBlocklist then [] else
                          if old_ then Ours(st.settings.flat, p) else st.settings.lists.At(p);
            && t.model.lists.At(p) == Merged(stored, shipped.At(p), st.settings.removed.At(p))
            && t.model.defaults == shipped && t.model.removed == st.settings.removed
            && t.model.platform == st.model.platform
            && (!old_ ==> t.settings == st.settings)
            && (old_ ==> t.settings.version == Some(2) && t.settings.lists.At(p) == stored
                         && t.settings.flat == st.settings.flat && t.settings.removed == st.settings.removed)
  {
  }

  // ---------------------------------------------------------------- what runs keep

  ghost predicate AllCovered(m: Model) {
    && Covered(m.lists.windows, m.defaults.windows, m.removed.windows)
    && Covered(m.lists.linux, m.defaults.linux, m.removed.linux)
  }

  /** What is saved is loaded again exactly when the lists cover the defaults. */
  lemma SavedReloadsIff(shipped: Per<seq<string>>, st: State)
    requires st.model.defaults == shipped
    ensures Loaded(shipped, Saved(st)).model == st.model <==> AllCovered(st.model)
    ensures Loaded(shipped, Saved(st)).settings == Saved(st).settings
  {
    MergeIsIdleIff(st.model.lists.windows, shipped.windows, st.model.removed.windows);
    MergeIsIdleIff(st.model.lists.linux, shipped.linux, st.model.removed.linux);
  }

  /** Loading covers, and loading again changes nothing, not even after a migration. */
  lemma LoadIsIdempotent(shipped: Per<seq<string>>, st: State)
    ensures AllCovered(Loaded(shipped, st).model)
    ensures Loaded(shipped, Loaded(shipped, st)) == Loaded(shipped, st)
  {
    var s := Migrated(st.settings);
    var base := if s.hasBlocklist then s.lists else NOTHING;
    MergeCovers(base.windows, shipped.windows, s.removed.windows);
    MergeCovers(base.linux, shipped.linux, s.removed.linux);
  }

  /** The defaults are covered, and a load would give the model there is. */
  ghost predicate Steady(shipped: Per<seq<string>>, st: State) {
    st.model.defaults == shipped && AllCovered(st.model) && Loaded(shipped, st).model == st.model
  }

  lemma AddCovers(list: seq<string>, name: string, defaults: seq<string>, removed: set<string>)
    requires Covered(list, defaults, removed)
    ensures Covered(list + [name], defaults, removed)
  {
  }

  lemma RemoveCovers(list: seq<string>, row: nat, count: nat, defaults: seq<string>, removed: set<string>)
    requires Covered(list, defaults, removed) && row + count <= |list|
    ensures Covered(list[..row] + list[row + count..], defaults, removed + Remembered(list[row..row + count], defaults))
  {
    assert list == list[..row] + list[row..row + count] + list[row + count..];
  }

  lemma AddKeeps(shipped: Per<seq<string>>, st: State, name: string, matched: bool)
    requires Steady(shipped, st)
    ensures Steady(shipped, Added(st, name, matched))
  {
    if Added(st, name, matched) != st {
      var p := st.model.platform.value;
      AddCovers(st.model.lists.At(p), name, shipped.At(p), st.model.removed.At(p));
      SavedReloadsIff(shipped, Added(st, name, matched));
    }
  }

  lemma RemoveKeeps(shipped: Per<seq<string>>, st: State, row: nat, count: nat)
    requires Steady(shipped, st) && InRange(st.model, row, count)
    ensures Steady(shipped, WithoutRows(st, row, count))
  {
    var p := st.model.platform.value;
    RemoveCovers(st.model.lists.At(p), row, count, shipped.At(p), st.model.removed.At(p));
    SavedReloadsIff(shipped, WithoutRows(st, row, count));
  }

  /** Over any run of loads, additions and removals, from any settings: every default is in
      its list or remembered as removed, and a load reproduces all lists exactly. */
  lemma {:induction false} RunsStaySteady(shipped: Per<seq<string>>, st: State, ops: seq<Op>)
    requires forall i :: 0 <= i < |ops| ==> !ops[i].Edit? && !ops[i].Restore?
    ensures Steady(shipped, Run(shipped, Loaded(shipped, st), ops))
  {
    LoadIsIdempotent(shipped, st);
    if ops != [] {
      var now, op := Run(shipped, Loaded(shipped, st), ops[..|ops| - 1]), ops[|ops| - 1];
      RunsStaySteady(shipped, st, ops[..|ops| - 1]);
      match op
      case Load => LoadIsIdempotent(shipped, now);
      case SetPlatform(p) => LoadIsIdempotent(shipped, now.(model := now.model.(platform := p)));
      case Add(name, matched) => AddKeeps(shipped, now, name, matched);
      case RemoveRows(row, count) => if InRange(now.model, row, count) { RemoveKeeps(shipped, now, row, count); }
    }
  }

  /** `d` is in neither the list nor the stored list, and remembered in both. */
  ghost predicate Gone(st: State, p: Platform, d: string) {
    && d !in st.model.lists.At(p) && d in st.model.removed.At(p)
    && !Migrates(st.settings) && st.settings.hasBlocklist
    && d !in st.settings.lists.At(p) && d in st.settings.removed.At(p)
  }

  lemma LoadKeepsGone(shipped: Per<seq<string>>, st: State, p: Platform, d: string)
    requires Gone(st, p, d)
    ensures Gone(Loaded(shipped, st), p, d)
  {
    MergeCovers(st.settings.lists.At(p), shipped.At(p), st.settings.removed.At(p));
  }

  lemma StepKeepsGone(shipped: Per<seq<string>>, st: State, op: Op, p: Platform, d: string)
    requires Gone(st, p, d) && !op.Restore? && ((op.Add? || op.Edit?) ==> op.name != d)
    ensures Gone(Step(shipped, st, op), p, d)
  {
    match op
    case Load => LoadKeepsGone(shipped, st, p, d);
    case SetPlatform(platform) => LoadKeepsGone(shipped, st.(model := st.model.(platform := platform)), p, d);
    case Add(_, _) =>
    case RemoveRows(row, count) =>
    case Edit(row, name, _) =>
  }

  /** A removed default stays away, through any run that neither brings it back by name nor
      restores the defaults. */
  lemma {:induction false} RemovedStaysRemoved(shipped: Per<seq<string>>, st: State, ops: seq<Op>,
                                              p: Platform, d: string)
    requires Gone(st, p, d)
    requires forall i :: 0 <= i < |ops| ==> !ops[i].Restore? && ((ops[i].Add? || ops[i].Edit?) ==> ops[i].name != d)
    ensures Gone(Run(shipped, st, ops), p, d)
  {
    if ops != [] {
      RemovedStaysRemoved(shipped, st, ops[..|ops| - 1], p, d);
      StepKeepsGone(shipped, Run(shipped, st, ops[..|ops| - 1]), ops[|ops| - 1], p, d);
    }
  }

  /** A name among the removed rows is gone so exactly when it is a default, or was removed
      before, and no row of it is left. */
  lemma RemovalIsRememberedIff(st: State, row: nat, count: nat, d: string)
    requires InRange(st.model, row, count)
    requires d in st.model.lists.At(st.model.platform.value)[row..row + count]
    ensures var p := st.model.platform.value; var list := st.model.lists.At(p);
            Gone(WithoutRows(st, row, count), p, d) <==>
            && (d in st.model.defaults.At(p) || d in st.model.removed.At(p))
            && d !in list[..row] && d !in list[row + count..]
  {
    var p := st.model.platform.value;
    var list := st.model.lists.At(p);
    assert d in list[..row] + list[row + count..] <==> d in list[..row] || d in list[row + count..];
  }

  /** Renaming a row keeps what a load reproduces exactly when the old name is no default,
      or was removed before, or has another row. */
  lemma EditReloadsIff(shipped: Per<seq<string>>, st: State, row: nat, name: string)
    requires Steady(shipped, st) && InRange(st.model, row, 1) && name != []
    ensures var p := st.model.platform.value; var list := st.model.lists.At(p); var old_ := list[row];
      Loaded(shipped, Edited(st, row, name, false)).model == Edited(st, row, name, false).model <==>
      old_ !in shipped.At(p) || old_ in st.model.removed.At(p) || old_ in list[row := name]
  {
    var p := st.model.platform.value;
    var list := st.model.lists.At(p);
    var next := Edited(st, row, name, false);
    SavedReloadsIff(shipped, next);
    forall x | x in list && x != list[row] ensures x in list[row := name] {
      var k :| 0 <= k < |list| && list[k] == x;
      assert list[row := name][k] == x;
    }
    assert AllCovered(next.model) <==> Covered(list[row := name], shipped.At(p), st.model.removed.At(p));
    if list[row] in shipped.At(p) {
      var i :| 0 <= i < |shipped.At(p)| && shipped.At(p)[i] == list[row];
    }
  }

  /** After the defaults were restored a load has every default of every platform. */
  lemma RestoreThenLoadHasAllDefaults(shipped: Per<seq<string>>, st: State, p: Platform, d: string)
    requires d in shipped.At(p)
    ensures d in Loaded(shipped, Restored(st)).model.lists.At(p)
  {
    var lists := Restored(st).model.lists;
    MergeCovers(lists.At(p), shipped.At(p), {});
  }

  /** Restoring gives every platform the default list exactly when the platforms that are
      not current have it already. */
  lemma RestoreResetsAllIff(st: State)
    ensures Restored(st).model.lists == st.model.defaults <==>
            forall p :: st.model.platform != Some(p) ==> st.model.lists.At(p) == st.model.defaults.At(p)
  {
    var m := st.model;
    forall p ensures Restored(st).model.lists.At(p) ==
                       if m.platform == Some(p) then m.defaults.At(p) else m.lists.At(p) {
    }
    assert Restored(st).model.lists == m.defaults <==>
           Restored(st).model.lists.At(Windows) == m.defaults.At(Windows) &&
           Restored(st).model.lists.At(Linux) == m.defaults.At(Linux);
  }

  // ---------------------------------------------------------------- the class

  class BlocklistModel {
    const shipped: Per<seq<string>>
    var settings: Settings
    var model: Model

    ghost function Abs(): State
      reads this
    {
      State(settings, model)
    }

    constructor (shipped: Per<seq<string>>, settings: Settings)
      ensures this.shipped == shipped && Abs() == State(settings, Model(None, NOTHING, NOTHING, Per({}, {})))
    {
      this.shipped, this.settings := shipped, settings;
      model := Model(None, NOTHING, NOTHING, Per({}, {}));
    }

    /** The migration loop. */
    static method SplitByPlatform(flat: seq<string>) returns (lists: Per<seq<string>>)
      ensures lists == Per(Ours(flat, Windows), Ours(flat, Linux))
    {
      lists := NOTHING;
      var j := 0;
      while j < |flat|
        invariant j <= |flat| && lists == Per(Ours(flat[..j], Windows), Ours(flat[..j], Linux))
      {
        var p := PlatformOf(flat[j]);
        lists := With(lists, p, lists.At(p) + [flat[j]]);
        assert flat[..j + 1][..j] == flat[..j];
        assert Ours(flat[..j], Windows) + [] == Ours(flat[..j], Windows);
        assert Ours(flat[..j], Linux) + [] == Ours(flat[..j], Linux);
        j := j + 1;
      }
      assert flat[..|flat|] == flat;
    }

    /** The loop over the shipped defaults of one platform. */
    static method MergeDefaults(list: seq<string>, shipped: seq<string>, removed: set<string>)
      returns (merged: seq<string>)
      ensures merged == Merged(list, shipped, removed)
    {
      merged := list;
      var j := 0;
      while j < |shipped|
        invariant j <= |shipped| && merged == Merged(list, shipped[..j], removed)
      {
        assert shipped[..j + 1][..j] == shipped[..j];
        if shipped[j] !in removed && shipped[j] !in merged {
          merged := merged + [shipped[j]];
        }
        j := j + 1;
      }
      assert shipped[..|shipped|] == shipped;
    }

    method Load()
      modifies this
      ensures Abs() == Loaded(shipped, old(Abs()))
    {
      var lists := NOTHING;
      if settings.hasBlocklist && (settings.version.None? || settings.version.value <= 1) {
        lists := SplitByPlatform(settings.flat);
        settings := settings.(lists := lists, version := Some(2));
      } else if settings.hasBlocklist {
        lists := settings.lists;
      }
      var windows := MergeDefaults(lists.windows, shipped.windows, settings.removed.windows);
      var linux := MergeDefaults(lists.linux, shipped.linux, settings.removed.linux);
      model := Model(model.platform, Per(windows, linux), shipped, settings.removed);
    }

    method Save()
      modifies this`settings
      ensures Abs() == Saved(old(Abs()))
    {
      settings := Settings(Some(3), true, settings.flat, model.lists, model.removed);
    }

    method SetPlatform(platform: Option<Platform>)
      modifies this
      ensures Abs() == Loaded(shipped, old(Abs().(model := model.(platform := platform))))
    {
      model := model.(platform := platform);
      Load();
    }

    method AddApplication(trimmed: string, matched: bool)
      modifies this
      ensures Abs() == Added(old(Abs()), trimmed, matched)
    {
      if model.platform.None? {
        return;
      }
      if trimmed == [] {
        return;
      }
      if matched {
        return;
      }
      var p := model.platform.value;
      model := model.(lists := With(model.lists, p, model.lists.At(p) + [trimmed]));
      Save();
    }

    /** Removes `count` rows from `row` on, each time the one that has moved up to `row`. */
    static method RemoveEach(list: seq<string>, row: nat, count: nat, defaults: seq<string>, removed: set<string>)
      returns (now: seq<string>, remembered: set<string>)
      requires row + count <= |list|
      ensures now == list[..row] + list[row + count..]
      ensures remembered == removed + Remembered(list[row..row + count], defaults)
    {
      now, remembered := list, removed;
      var i := 0;
      while i < count
        invariant i <= count && now == list[..row] + list[row + i..]
        invariant remembered == removed + Remembered(list[row..row + i], defaults)
      {
        var name := now[row];
        RowMovedUp(list, row, i);
        now := now[..row] + now[row + 1..];
        if name in defaults {
          remembered := remembered + {name};
        }
        i := i + 1;
      }
    }

    method RemoveRows(row: int, count: nat) returns (done: bool)
      requires row >= 0 ==> InRange(model, row, count)
      modifies this
      ensures done <==> row >= 0
      ensures Abs() == if row >= 0 then WithoutRows(old(Abs()), row, count) else old(Abs())
    {
      if row < 0 {
        return false;
      }
      var p := model.platform.value;
      var list, removed := RemoveEach(model.lists.At(p), row, count, model.defaults.At(p), model.removed.At(p));
      model := model.(lists := With(model.lists, p, list), removed := With(model.removed, p, removed));
      Save();
      return true;
    }

    method SetData(row: nat, trimmed: string, matched: bool) returns (done: bool)
      requires InRange(model, row, 1)
      modifies this
      ensures done <==> trimmed != [] && !matched
      ensures Abs() == Edited(old(Abs()), row, trimmed, matched)
    {
      if trimmed == [] {
        return false;
      }
      if matched {
        return false;
      }
      var p := model.platform.value;
      model := model.(lists := With(model.lists, p, model.lists.At(p)[row := trimmed]));
      Save();
      return true;
    }

    /** One round for each platform; every round resets the current platform's list. */
    method RestoreDefaults()
      modifies this
      ensures Abs() == Restored(old(Abs()))
    {
      var platforms := [Windows, Linux];
      var k := 0;
      while k < |platforms|
        invariant k <= |platforms| && settings == old(settings)
        invariant model == old(model).(lists := model.lists, removed := model.removed)
        invariant model.lists == if k > 0 then Restored(old(Abs())).model.lists else old(model.lists)
        invariant k > 0 ==> model.removed.windows == {}
        invariant k > 1 ==> model.removed.linux == {}
      {
        if model.platform.Some? {
          var p := model.platform.value;
          model := model.(lists := With(model.lists, p, model.defaults.At(p)));
        }
        model := model.(removed := With(model.removed, platforms[k], {}));
        k := k + 1;
      }
      Save();
    }
  }
}
