/** The kernel module loader: source/kernel/src/module.c.

    Loading is a depth-first walk over the dependency graph with a mutable table of
    LOADING and LOADED entries. `Load` and `LoadAll` give the walk as functions from table
    to table; `ModuleManager` is the walk in the kernel's own form. The reference it is
    measured against is `Loadable`, the least fixpoint of "healthy, and every required
    dependency is in the set", which knows nothing about tables, marks or optional edges. */
module ModuleLoader {

  type Name = string

  const EINVAL := 2
  const ENOENT := 6
  const ELOOP := 22

  /** What the module file of one name answers: check_module, load_module, the two symbol
      lookups, get_dependencies and the module's own init(). */
  datatype Image = Image(
    valid: bool,
    loadError: int,
    exportsInit: bool,
    exportsDestroy: bool,
    dependenciesError: int,
    required: seq<Name>,
    optional: seq<Name>,
    initError: int)

  /** Every module that the boot modules and the module directory offer. */
  type Repository = map<Name, Image>

  datatype Status = Loading | Loaded

  type Table = map<Name, Status>

  /** One call of a module's init(). */
  datatype InitCall = InitCall(name: Name, error: int)

  datatype Outcome = Outcome(error: int, table: Table, inits: seq<InitCall>)

  ghost function LoadedIn(t: Table): set<Name> {
    set n | n in t && t[n] == Loaded
  }

  ghost function LoadingIn(t: Table): set<Name> {
    set n | n in t && t[n] == Loading
  }

  // ---------------------------------------------------------------------------------------
  // The walk

  /** do_load_module */
  function Load(repo: Repository, t: Table, name: Name): (r: Outcome)
    ensures t.Keys <= r.table.Keys
    decreases |repo.Keys - t.Keys|, 0
  {
    if name !in repo then
      Outcome(-ENOENT, t, [])
    else if !repo[name].valid then
      Outcome(-EINVAL, t, [])
    else if name in t then
      Outcome(if t[name] == Loading then -ELOOP else 0, t, [])
    else
      assert repo.Keys - t[name := Loading].Keys == (repo.Keys - t.Keys) - {name};
      Finish(LoadBody(repo, t[name := Loading], name), name)
  }

  /** How a load that was under way ends: its entry is dropped, or marked LOADED. */
  function Finish(body: Outcome, name: Name): Outcome {
    if body.error < 0 then
      body.(table := body.table - {name})
    else
      Outcome(0, body.table[name := Loaded], body.inits)
  }

  /** do_load_module between marking the entry LOADING and marking it LOADED. */
  function LoadBody(repo: Repository, t: Table, name: Name): (r: Outcome)
    requires name in repo && name in t
    ensures t.Keys <= r.table.Keys
    decreases |repo.Keys - t.Keys|, |repo[name].required| + |repo[name].optional| + 2
  {
    var image := repo[name];
    if image.loadError < 0 then
      Outcome(image.loadError, t, [])
    else if !image.exportsInit || !image.exportsDestroy then
      Outcome(-ENOENT, t, [])
    else if image.dependenciesError < 0 then
      Outcome(image.dependenciesError, t, [])
    else
      var req := LoadAll(repo, t, image.required);
      if req.error < 0 then
        req
      else
        SmallerRest(repo.Keys, t.Keys, req.table.Keys);
        var opt := LoadAll(repo, req.table, image.optional);
        Outcome(image.initError, opt.table, req.inits + opt.inits + [InitCall(name, image.initError)])
  }

  /** do_load_module_dependencies */
  function LoadAll(repo: Repository, t: Table, names: seq<Name>): (r: Outcome)
    ensures t.Keys <= r.table.Keys
    decreases |repo.Keys - t.Keys|, |names| + 1
  {
    if names == [] then
      Outcome(0, t, [])
    else
      var first := Load(repo, t, names[0]);
      if first.error < 0 then
        first
      else
        SmallerRest(repo.Keys, t.Keys, first.table.Keys);
        var rest := LoadAll(repo, first.table, names[1..]);
        rest.(inits := first.inits + rest.inits)
  }

  lemma SmallerRest(all: set<Name>, used: set<Name>, moreUsed: set<Name>)
    requires used <= moreUsed
    ensures |all - moreUsed| <= |all - used|
  {
    SubsetSize(all - moreUsed, all - used);
  }

  /** Marking a new name leaves fewer names to mark. */
  lemma MarkSmaller(repo: Repository, t: Table, name: Name)
    requires name in repo && name !in t
    ensures |repo.Keys - t[name := Loading].Keys| < |repo.Keys - t.Keys|
  {
    assert repo.Keys - t[name := Loading].Keys == (repo.Keys - t.Keys) - {name};
  }

  lemma {:induction false} SubsetSize(a: set<Name>, b: set<Name>)
    requires a <= b
    ensures |a| <= |b|
  {
    assert b == a + (b - a);
  }

  // ---------------------------------------------------------------------------------------
  // The reference: what ought to be loadable

  predicate Healthy(image: Image) {
    && image.valid
    && image.loadError >= 0
    && image.exportsInit
    && image.exportsDestroy
    && image.dependenciesError >= 0
    && image.initError >= 0
  }

  /** The k-th approximation of the least fixpoint. */
  ghost function Stage(repo: Repository, k: nat): set<Name> {
    if k == 0 then {}
    else set n | n in repo && Healthy(repo[n]) && (forall d :: d in repo[n].required ==> d in Stage(repo, k - 1))
  }

  ghost predicate Loadable(repo: Repository, name: Name) {
    exists k: nat :: name in Stage(repo, k)
  }

  /** One unfolding of the rule that defines loadability, over an arbitrary set. */
  ghost predicate Rule(repo: Repository, s: set<Name>, name: Name) {
    name in repo && Healthy(repo[name]) && forall d :: d in repo[name].required ==> d in s
  }

  /** b can be reached from a through k required dependencies. */
  ghost predicate ReachesIn(repo: Repository, a: Name, b: Name, k: nat)
    decreases k
  {
    if k == 0 then a == b
    else a in repo && exists d :: d in repo[a].required && ReachesIn(repo, d, b, k - 1)
  }

  ghost predicate Reaches(repo: Repository, a: Name, b: Name) {
    exists k: nat :: ReachesIn(repo, a, b, k)
  }

  /** name leads, through required dependencies, to a module that requires itself. */
  ghost predicate ReachesCycle(repo: Repository, name: Name) {
    exists c, d :: Reaches(repo, name, c) && c in repo && d in repo[c].required && Reaches(repo, d, c)
  }

  lemma {:induction false} StageMonotone(repo: Repository, j: nat, k: nat)
    requires j <= k
    ensures Stage(repo, j) <= Stage(repo, k)
  {
    if j > 0 {
      StageMonotone(repo, j - 1, k - 1);
    }
  }

  lemma {:induction false} CommonStage(repo: Repository, names: seq<Name>) returns (k: nat)
    requires forall d :: d in names ==> Loadable(repo, d)
    ensures forall d :: d in names ==> d in Stage(repo, k)
  {
    if names == [] {
      k := 0;
    } else {
      assert Loadable(repo, names[0]);
      var k0 := CommonStage(repo, names[1..]);
      var k1: nat :| names[0] in Stage(repo, k1);
      k := if k0 < k1 then k1 else k0;
      StageMonotone(repo, k0, k);
      StageMonotone(repo, k1, k);
      forall d | d in names ensures d in Stage(repo, k) {
        if d != names[0] { assert d in names[1..]; }
      }
    }
  }

  /** Loadable is a fixpoint of the rule ... */
  lemma LoadableIsFixpoint(repo: Repository, name: Name)
    ensures Loadable(repo, name) <==>
            name in repo && Healthy(repo[name]) && forall d :: d in repo[name].required ==> Loadable(repo, d)
  {
    if Loadable(repo, name) {
      var k: nat :| name in Stage(repo, k);
      forall d | d in repo[name].required ensures Loadable(repo, d) {
        assert d in Stage(repo, k - 1);
      }
    }
    if name in repo && Healthy(repo[name]) && forall d :: d in repo[name].required ==> Loadable(repo, d) {
      var k := CommonStage(repo, repo[name].required);
      assert name in Stage(repo, k + 1);
    }
  }

  /** ... and the least one: it is inside every set that the rule does not lead out of. */
  lemma LoadableIsLeast(repo: Repository, s: set<Name>, name: Name)
    requires forall n :: Rule(repo, s, n) ==> n in s
    requires Loadable(repo, name)
    ensures name in s
  {
    var k: nat :| name in Stage(repo, k);
    StageInside(repo, s, k);
  }

  lemma {:induction false} StageInside(repo: Repository, s: set<Name>, k: nat)
    requires forall n :: Rule(repo, s, n) ==> n in s
    ensures Stage(repo, k) <= s
  {
    if k > 0 {
      StageInside(repo, s, k - 1);
      forall n | n in Stage(repo, k) ensures n in s {
        assert Rule(repo, s, n);
      }
    }
  }

  lemma ReachesSelf(repo: Repository, a: Name)
    ensures Reaches(repo, a, a)
  {
    assert ReachesIn(repo, a, a, 0);
  }

  lemma ReachesStep(repo: Repository, a: Name, d: Name, b: Name)
    requires a in repo && d in repo[a].required && Reaches(repo, d, b)
    ensures Reaches(repo, a, b)
  {
    var k: nat :| ReachesIn(repo, d, b, k);
    assert ReachesIn(repo, a, b, k + 1);
  }

  lemma {:induction false} ReachesDescends(repo: Repository, a: Name, b: Name, k: nat, j: nat)
    requires a in Stage(repo, k) && ReachesIn(repo, a, b, j)
    ensures j < k && b in Stage(repo, k - j)
    decreases j
  {
    if j > 0 {
      var d :| d in repo[a].required && ReachesIn(repo, d, b, j - 1);
      ReachesDescends(repo, d, b, k - 1, j - 1);
    }
  }

  /** Nothing loadable requires itself, however indirectly. */
  lemma LoadableHasNoCycle(repo: Repository, a: Name, d: Name)
    requires Loadable(repo, a) && d in repo[a].required
    ensures !Reaches(repo, d, a)
  {
    if Reaches(repo, d, a) {
      var j: nat :| ReachesIn(repo, d, a, j);
      assert ReachesIn(repo, a, a, j + 1);
      var k: nat :| a in Stage(repo, k);
      Descend(repo, a, j + 1, k);
    }
  }

  lemma {:induction false} Descend(repo: Repository, a: Name, j: nat, k: nat)
    requires j > 0 && ReachesIn(repo, a, a, j)
    ensures a !in Stage(repo, k)
    decreases k
  {
    if a in Stage(repo, k) {
      ReachesDescends(repo, a, a, k, j);
      Descend(repo, a, j, k - j);
    }
  }

  // ---------------------------------------------------------------------------------------
  // What every call keeps

  /** The table invariant. LOADED is closed under required dependencies and holds only names
      the reference calls loadable. */
  ghost predicate Consistent(repo: Repository, t: Table) {
    forall n :: n in t && t[n] == Loaded ==>
      && Loadable(repo, n)
      && n in repo
      && Healthy(repo[n])
      && forall d :: d in repo[n].required ==> d in t && t[d] == Loaded
  }

  /** Entries present before are untouched, and whatever is new is LOADED: so the LOADING set
      on return is the LOADING set on entry. */
  ghost predicate Extends(t: Table, t': Table) {
    && (forall n :: n in t ==> n in t' && t'[n] == t[n])
    && (forall n :: n in t' && n !in t ==> t'[n] == Loaded)
  }

  lemma {:induction false} LoadExtends(repo: Repository, t: Table, name: Name)
    ensures Extends(t, Load(repo, t, name).table)
    ensures Load(repo, t, name).error <= 0
    decreases |repo.Keys - t.Keys|, 0
  {
    if name in repo && repo[name].valid && name !in t {
      MarkSmaller(repo, t, name);
      var t1 := t[name := Loading];
      LoadBodyExtends(repo, t1, name);
      FinishExtends(t, LoadBody(repo, t1, name), name);
    }
  }

  lemma FinishExtends(t: Table, body: Outcome, name: Name)
    requires name !in t && Extends(t[name := Loading], body.table)
    ensures Extends(t, Finish(body, name).table)
  {
    assert forall n :: n in t ==> n in t[name := Loading];
  }

  lemma {:induction false} LoadBodyExtends(repo: Repository, t: Table, name: Name)
    requires name in repo && name in t
    ensures Extends(t, LoadBody(repo, t, name).table)
    decreases |repo.Keys - t.Keys|, |repo[name].required| + |repo[name].optional| + 2
  {
    var req := LoadAll(repo, t, repo[name].required);
    LoadAllExtends(repo, t, repo[name].required);
    SmallerRest(repo.Keys, t.Keys, req.table.Keys);
    LoadAllExtends(repo, req.table, repo[name].optional);
  }

  lemma {:induction false} LoadAllExtends(repo: Repository, t: Table, names: seq<Name>)
    ensures Extends(t, LoadAll(repo, t, names).table)
    ensures LoadAll(repo, t, names).error <= 0
    decreases |repo.Keys - t.Keys|, |names| + 1
  {
    if names != [] {
      var first := Load(repo, t, names[0]);
      LoadExtends(repo, t, names[0]);
      SmallerRest(repo.Keys, t.Keys, first.table.Keys);
      LoadAllExtends(repo, first.table, names[1..]);
    }
  }

  lemma ExtendsSameLoading(t: Table, t': Table)
    requires Extends(t, t')
    ensures LoadingIn(t') == LoadingIn(t)
    ensures LoadedIn(t) <= LoadedIn(t')
  {
  }

  /** Success leaves the module LOADED and the table consistent. */
  lemma {:induction false} LoadSound(repo: Repository, t: Table, name: Name)
    requires Consistent(repo, t)
    ensures Consistent(repo, Load(repo, t, name).table)
    ensures Load(repo, t, name).error == 0 ==>
              var t' := Load(repo, t, name).table; name in t' && t'[name] == Loaded
    decreases |repo.Keys - t.Keys|, 0
  {
    hide Load, LoadBody, Finish, Healthy, Consistent, Extends, Loadable, LoadingIn, LoadedIn;
    LoadStep(repo, t, name);
    if name in repo && repo[name].valid && name !in t {
      var t1 := t[name := Loading];
      MarkSmaller(repo, t, name);
      MarkLoading(repo, t, name);
      LoadBodySound(repo, t1, name);
      LoadBodyExtends(repo, t1, name);
      StillLoading(t1, LoadBody(repo, t1, name).table, name);
      assert repo[name].(valid := true) == repo[name];
      FinishSound(repo, LoadBody(repo, t1, name), name);
    }
  }

  lemma FinishSound(repo: Repository, body: Outcome, name: Name)
    requires Consistent(repo, body.table) && name in body.table && body.table[name] == Loading && name in repo
    requires body.error >= 0 ==>
               && Healthy(repo[name])
               && forall d :: d in repo[name].required ==> d in body.table && body.table[d] == Loaded
    ensures Consistent(repo, Finish(body, name).table)
    ensures Finish(body, name).error == 0 ==>
              name in Finish(body, name).table && Finish(body, name).table[name] == Loaded
  {
    LoadableIsFixpoint(repo, name);
  }

  lemma StillLoading(t: Table, t': Table, name: Name)
    requires Extends(t, t') && name in t && t[name] == Loading
    ensures name in t' && t'[name] == Loading
  {
  }

  /** Load, unfolded once. */
  lemma LoadStep(repo: Repository, t: Table, name: Name)
    ensures Load(repo, t, name) ==
            if name !in repo then Outcome(-ENOENT, t, [])
            else if !repo[name].valid then Outcome(-EINVAL, t, [])
            else if name in t then Outcome(if t[name] == Loading then -ELOOP else 0, t, [])
            else Finish(LoadBody(repo, t[name := Loading], name), name)
  {
    hide LoadBody, Finish;
  }

  lemma NoHistory(repo: Repository, before: set<Name>)
    ensures LegalHistory(repo, before, [], before)
  {
  }

  lemma FinishLoadedIn(body: Outcome, name: Name)
    requires name in body.table && body.table[name] == Loading
    ensures LoadedIn(Finish(body, name).table) ==
            if body.error < 0 then LoadedIn(body.table) else LoadedIn(body.table) + {name}
  {
  }

  lemma {:induction false} LoadBodySound(repo: Repository, t: Table, name: Name)
    requires name in repo && name in t && Consistent(repo, t)
    ensures Consistent(repo, LoadBody(repo, t, name).table)
    ensures LoadBody(repo, t, name).error >= 0 ==>
              var t' := LoadBody(repo, t, name).table;
              && Healthy(repo[name].(valid := true))
              && forall d :: d in repo[name].required ==> d in t' && t'[d] == Loaded
    decreases |repo.Keys - t.Keys|, |repo[name].required| + |repo[name].optional| + 2
  {
    var image := repo[name];
    var req := LoadAll(repo, t, image.required);
    LoadAllSound(repo, t, image.required);
    LoadAllExtends(repo, t, image.required);
    SmallerRest(repo.Keys, t.Keys, req.table.Keys);
    LoadAllSound(repo, req.table, image.optional);
    LoadAllExtends(repo, req.table, image.optional);
  }

  lemma {:induction false} LoadAllSound(repo: Repository, t: Table, names: seq<Name>)
    requires Consistent(repo, t)
    ensures Consistent(repo, LoadAll(repo, t, names).table)
    ensures LoadAll(repo, t, names).error == 0 ==>
              var t' := LoadAll(repo, t, names).table;
              forall d :: d in names ==> d in t' && t'[d] == Loaded
    decreases |repo.Keys - t.Keys|, |names| + 1
  {
    hide Load, LoadAll, Consistent, Extends;
    LoadAllStep(repo, t, names);
    if names != [] {
      var first := Load(repo, t, names[0]);
      LoadSound(repo, t, names[0]);
      LoadExtends(repo, t, names[0]);
      SmallerRest(repo.Keys, t.Keys, first.table.Keys);
      LoadAllSound(repo, first.table, names[1..]);
      LoadAllExtends(repo, first.table, names[1..]);
      if first.error == 0 {
        FirstStaysLoaded(first.table, LoadAll(repo, first.table, names[1..]).table, names);
      }
    }
  }

  lemma FirstStaysLoaded(t: Table, t': Table, names: seq<Name>)
    requires names != [] && Extends(t, t') && names[0] in t && t[names[0]] == Loaded
    ensures (forall d :: d in names[1..] ==> d in t' && t'[d] == Loaded) ==>
              forall d :: d in names ==> d in t' && t'[d] == Loaded
  {
    assert names == [names[0]] + names[1..];
  }

  /** LoadAll, unfolded once. */
  lemma LoadAllStep(repo: Repository, t: Table, names: seq<Name>)
    ensures names == [] ==> LoadAll(repo, t, names) == Outcome(0, t, [])
    ensures names != [] ==>
      var first := Load(repo, t, names[0]);
      if first.error < 0 then LoadAll(repo, t, names) == first
      else
        var rest := LoadAll(repo, first.table, names[1..]);
        LoadAll(repo, t, names) == rest.(inits := first.inits + rest.inits)
  {
    hide Load;
  }

  // ---------------------------------------------------------------------------------------
  // Exactness

  /** No module whose load is under way is required by name. */
  ghost predicate Unblocked(repo: Repository, t: Table, name: Name) {
    forall m :: m in t && t[m] == Loading ==> !Reaches(repo, name, m)
  }

  /** A loadable module that requires nothing under way does load. */
  lemma LoadComplete(repo: Repository, t: Table, name: Name)
    requires Consistent(repo, t) && Loadable(repo, name) && Unblocked(repo, t, name)
    ensures Load(repo, t, name).error == 0
  {
    hide Load, Answer, Loadable, Reaches, Consistent;
    LoadAnswer(repo, t, name);
    LoadableAnswer(repo, LoadingIn(t), name);
  }

  lemma {:induction false} LoadedReachesLoaded(repo: Repository, t: Table, a: Name, b: Name, k: nat)
    requires Consistent(repo, t) && a in t && t[a] == Loaded && ReachesIn(repo, a, b, k)
    ensures b in t && t[b] == Loaded
    decreases k
  {
    if k > 0 {
      var d :| d in repo[a].required && ReachesIn(repo, d, b, k - 1);
      LoadedReachesLoaded(repo, t, d, b, k - 1);
    }
  }

  /** The main result, at any depth of the walk: a call succeeds exactly when the module is
      loadable and requires nothing whose load is still under way. */
  lemma LoadExact(repo: Repository, t: Table, name: Name)
    requires Consistent(repo, t)
    ensures Load(repo, t, name).error == 0 <==> Loadable(repo, name) && Unblocked(repo, t, name)
  {
    var r := Load(repo, t, name);
    if Loadable(repo, name) && Unblocked(repo, t, name) {
      LoadComplete(repo, t, name);
    }
    if r.error == 0 {
      LoadSound(repo, t, name);
      LoadExtends(repo, t, name);
      forall m | m in t && t[m] == Loading ensures !Reaches(repo, name, m) {
        if Reaches(repo, name, m) {
          var k: nat :| ReachesIn(repo, name, m, k);
          LoadedReachesLoaded(repo, r.table, name, m, k);
        }
      }
    }
  }

  // ---------------------------------------------------------------------------------------
  // The error value

  /** What a load of name answers while the names in `loading` are under way. It knows neither
      the table nor optional dependencies. */
  ghost function Answer(repo: Repository, loading: set<Name>, name: Name): int
    decreases |repo.Keys - loading|, 0
  {
    if name !in repo then -ENOENT
    else if !repo[name].valid then -EINVAL
    else if name in loading then -ELOOP
    else
      assert repo.Keys - (loading + {name}) == (repo.Keys - loading) - {name};
      ErrorFrom(repo[name], AnswerAll(repo, loading + {name}, repo[name].required, |repo[name].required|))
  }

  /** The error of one module, given that of its required dependencies. */
  function ErrorFrom(image: Image, required: int): int {
    if image.loadError < 0 then image.loadError
    else if !image.exportsInit || !image.exportsDestroy then -ENOENT
    else if image.dependenciesError < 0 then image.dependenciesError
    else if required < 0 then required
    else if image.initError < 0 then image.initError
    else 0
  }

  /** The first failure among the first i names, or 0. */
  ghost function AnswerAll(repo: Repository, loading: set<Name>, names: seq<Name>, i: nat): int
    requires i <= |names|
    decreases |repo.Keys - loading|, i + 1
  {
    if i == 0 then 0
    else
      var front := AnswerAll(repo, loading, names, i - 1);
      if front < 0 then front else Answer(repo, loading, names[i - 1])
  }

  ghost predicate UnblockedBy(repo: Repository, loading: set<Name>, name: Name) {
    forall m :: m in loading ==> !Reaches(repo, name, m)
  }

  /** A loadable module that requires nothing under way is answered 0. */
  lemma {:induction false} LoadableAnswer(repo: Repository, loading: set<Name>, name: Name)
    requires Loadable(repo, name) && UnblockedBy(repo, loading, name)
    ensures Answer(repo, loading, name) == 0
    decreases |repo.Keys - loading|, 0
  {
    hide Loadable, Reaches;
    LoadableIsFixpoint(repo, name);
    ReachesSelf(repo, name);
    assert repo.Keys - (loading + {name}) == (repo.Keys - loading) - {name};
    forall d | d in repo[name].required ensures UnblockedBy(repo, loading + {name}, d) {
      LoadableHasNoCycle(repo, name, d);
      forall m | m in loading + {name} ensures !Reaches(repo, d, m) {
        if Reaches(repo, d, m) { ReachesStep(repo, name, d, m); }
      }
    }
    LoadableAnswers(repo, loading + {name}, repo[name].required, |repo[name].required|);
  }

  lemma {:induction false} LoadableAnswers(repo: Repository, loading: set<Name>, names: seq<Name>, i: nat)
    requires i <= |names| && forall d :: d in names ==> Loadable(repo, d) && UnblockedBy(repo, loading, d)
    ensures AnswerAll(repo, loading, names, i) == 0
    decreases |repo.Keys - loading|, i + 1
  {
    hide Loadable, UnblockedBy, Answer;
    if i > 0 {
      LoadableAnswers(repo, loading, names, i - 1);
      LoadableAnswer(repo, loading, names[i - 1]);
    }
  }

  /** A LOADED module reaches LOADED ones only. */
  lemma LoadedUnblocked(repo: Repository, t: Table, name: Name)
    requires Consistent(repo, t) && name in t && t[name] == Loaded
    ensures UnblockedBy(repo, LoadingIn(t), name)
  {
    forall m | m in LoadingIn(t) ensures !Reaches(repo, name, m) {
      if Reaches(repo, name, m) {
        var k: nat :| ReachesIn(repo, name, m, k);
        LoadedReachesLoaded(repo, t, name, m, k);
      }
    }
  }

  /** For every consistent table the error of a load is the answer: the table matters only
      through what is under way, and optional dependencies do not matter at all. */
  lemma {:induction false} LoadAnswer(repo: Repository, t: Table, name: Name)
    requires Consistent(repo, t)
    ensures Load(repo, t, name).error == Answer(repo, LoadingIn(t), name)
    decreases |repo.Keys - t.Keys|, 0
  {
    hide Load, LoadAll, AnswerAll, ErrorFrom, Consistent, LoadingIn;
    LoadErrorStep(repo, t, name);
    if name in repo && repo[name].valid {
      if name in t {
        TableAnswer(repo, t, name);
      } else {
        MarkLoading(repo, t, name);
        MarkSmaller(repo, t, name);
        LoadAllAnswer(repo, t[name := Loading], repo[name].required);
      }
    }
  }

  lemma TableAnswer(repo: Repository, t: Table, name: Name)
    requires Consistent(repo, t) && name in t && name in repo && repo[name].valid
    ensures Answer(repo, LoadingIn(t), name) == if t[name] == Loading then -ELOOP else 0
  {
    hide Loadable, AnswerAll;
    if t[name] == Loaded {
      LoadedUnblocked(repo, t, name);
      LoadableAnswer(repo, LoadingIn(t), name);
    }
  }

  lemma MarkLoading(repo: Repository, t: Table, name: Name)
    requires Consistent(repo, t) && name !in t
    ensures Consistent(repo, t[name := Loading])
    ensures LoadingIn(t[name := Loading]) == LoadingIn(t) + {name} && name !in LoadingIn(t)
    ensures LoadedIn(t[name := Loading]) == LoadedIn(t)
  {
    hide Loadable, Healthy;
  }

  /** The error of Load, unfolded once. */
  lemma LoadErrorStep(repo: Repository, t: Table, name: Name)
    ensures Load(repo, t, name).error ==
            if name !in repo then -ENOENT
            else if !repo[name].valid then -EINVAL
            else if name in t then (if t[name] == Loading then -ELOOP else 0)
            else ErrorFrom(repo[name], LoadAll(repo, t[name := Loading], repo[name].required).error)
  {
    hide LoadAll;
  }

  lemma {:induction false} LoadAllAnswer(repo: Repository, t: Table, names: seq<Name>)
    requires Consistent(repo, t)
    ensures LoadAll(repo, t, names).error == AnswerAll(repo, LoadingIn(t), names, |names|)
    decreases |repo.Keys - t.Keys|, |names| + 1
  {
    hide Load, LoadAll, Answer, AnswerAll, Consistent, Extends, LoadingIn, LoadedIn;
    if names == [] {
      LoadAllStep(repo, t, names);
      AnswerNothing(repo, LoadingIn(t), names);
    } else {
      var first := Load(repo, t, names[0]);
      LoadAnswer(repo, t, names[0]);
      LoadSound(repo, t, names[0]);
      LoadExtends(repo, t, names[0]);
      ExtendsSameLoading(t, first.table);
      SmallerRest(repo.Keys, t.Keys, first.table.Keys);
      LoadAllAnswer(repo, first.table, names[1..]);
      CombineAnswers(repo, t, LoadingIn(t), names);
    }
  }

  lemma CombineAnswers(repo: Repository, t: Table, loading: set<Name>, names: seq<Name>)
    requires names != [] && Load(repo, t, names[0]).error == Answer(repo, loading, names[0])
    requires LoadAll(repo, Load(repo, t, names[0]).table, names[1..]).error
          == AnswerAll(repo, loading, names[1..], |names[1..]|)
    ensures LoadAll(repo, t, names).error == AnswerAll(repo, loading, names, |names|)
  {
    hide Load, LoadAll, Answer, AnswerAll;
    LoadAllStep(repo, t, names);
    AnswerFirst(repo, loading, names, |names|);
    assert |names[1..]| == |names| - 1;
  }

  lemma AnswerNothing(repo: Repository, loading: set<Name>, names: seq<Name>)
    ensures AnswerAll(repo, loading, names, 0) == 0
  {
  }

  /** AnswerAll, taken from the front. */
  lemma {:induction false} AnswerFirst(repo: Repository, loading: set<Name>, names: seq<Name>, i: nat)
    requires 0 < i <= |names|
    ensures var first := Answer(repo, loading, names[0]);
            AnswerAll(repo, loading, names, i) ==
            if first < 0 then first else AnswerAll(repo, loading, names[1..], i - 1)
    decreases i
  {
    hide Answer;
    AnswerNotPositive(repo, loading, names[0]);
    if i > 1 {
      AnswerFirst(repo, loading, names, i - 1);
    } else {
      assert AnswerAll(repo, loading, names, 0) == 0;
    }
  }

  lemma AnswerNotPositive(repo: Repository, loading: set<Name>, name: Name)
    ensures Answer(repo, loading, name) <= 0
  {
    hide AnswerAll;
  }

  /** Same modules, same required dependencies, any optional ones. */
  ghost predicate SameUpToOptional(repo: Repository, repo': Repository) {
    repo.Keys == repo'.Keys && forall n :: n in repo ==> repo'[n] == repo[n].(optional := repo'[n].optional)
  }

  lemma {:induction false} AnswerIgnoresOptional(repo: Repository, repo': Repository, loading: set<Name>, name: Name)
    requires SameUpToOptional(repo, repo')
    ensures Answer(repo, loading, name) == Answer(repo', loading, name)
    decreases |repo.Keys - loading|, 0
  {
    if name in repo && name !in loading {
      assert repo.Keys - (loading + {name}) == (repo.Keys - loading) - {name};
      AnswersIgnoreOptional(repo, repo', loading + {name}, repo[name].required, |repo[name].required|);
    }
  }

  lemma {:induction false} AnswersIgnoreOptional(repo: Repository, repo': Repository, loading: set<Name>,
                                                 names: seq<Name>, i: nat)
    requires SameUpToOptional(repo, repo') && i <= |names|
    ensures AnswerAll(repo, loading, names, i) == AnswerAll(repo', loading, names, i)
    decreases |repo.Keys - loading|, i + 1
  {
    hide Answer, SameUpToOptional;
    if i > 0 {
      AnswersIgnoreOptional(repo, repo', loading, names, i - 1);
      AnswerIgnoresOptional(repo, repo', loading, names[i - 1]);
    }
  }

  /** Optional dependencies, and cycles through them, never change the answer of a load, down to
      the error value, whatever is LOADED. */
  lemma OptionalEdgesAreIrrelevant(repo: Repository, repo': Repository, t: Table, t': Table, name: Name)
    requires SameUpToOptional(repo, repo')
    requires Consistent(repo, t) && Consistent(repo', t') && LoadingIn(t) == LoadingIn(t')
    ensures Load(repo, t, name).error == Load(repo', t', name).error
  {
    hide Load, Answer, Consistent;
    LoadAnswer(repo, t, name);
    LoadAnswer(repo', t', name);
    AnswerIgnoresOptional(repo, repo', LoadingIn(t), name);
  }

  // ---------------------------------------------------------------------------------------
  // Optional dependencies

  /** d would load while the names in `loading` are under way. */
  ghost predicate Welcome(repo: Repository, loading: set<Name>, d: Name) {
    Loadable(repo, d) && UnblockedBy(repo, loading, d)
  }

  /** A load of name gets as far as its init(). */
  ghost predicate Begins(repo: Repository, t: Table, name: Name) {
    && name in repo && name !in t && Healthy(repo[name].(initError := 0))
    && forall d :: d in repo[name].required ==> Welcome(repo, LoadingIn(t) + {name}, d)
  }

  /** The optional dependencies are loaded in order, before init() and whatever it answers, as long
      as each would load. */
  lemma OptionalsLoaded(repo: Repository, t: Table, name: Name, i: nat)
    requires Consistent(repo, t) && Begins(repo, t, name) && i <= |repo[name].optional|
    requires forall k :: 0 <= k < i ==> Welcome(repo, LoadingIn(t) + {name}, repo[name].optional[k])
    ensures forall k :: 0 <= k < i ==> repo[name].optional[k] in LoadedIn(Load(repo, t, name).table)
  {
    hide Load, LoadAll, LoadBody, Consistent, Begins, Welcome, LoadingIn;
    BeginsStep(repo, t, name);
    MarkLoading(repo, t, name);
    var t1 := t[name := Loading];
    var req := LoadAll(repo, t1, repo[name].required);
    LoadAllSound(repo, t1, repo[name].required);
    LoadAllExtends(repo, t1, repo[name].required);
    ExtendsSameLoading(t1, req.table);
    PrefixLoaded(repo, req.table, repo[name].optional, i);
    LoadAllExtends(repo, req.table, repo[name].optional);
    var opt := LoadAll(repo, req.table, repo[name].optional);
    forall k | 0 <= k < i ensures repo[name].optional[k] in LoadedIn(Load(repo, t, name).table) {
      assert repo[name].optional[k] in LoadedIn(opt.table);
      assert name in t1 && t1[name] == Loading;
    }
  }

  /** A load that begins runs init() last, after everything it depends on, and no other load of name
      runs it at all. */
  lemma OwnInitLast(repo: Repository, t: Table, name: Name)
    requires Consistent(repo, t)
    ensures var inits := Load(repo, t, name).inits;
            if Begins(repo, t, name)
            then inits != [] && inits[|inits| - 1] == InitCall(name, repo[name].initError)
            else forall c :: c in inits ==> c.name != name
  {
    hide Load, LoadAll, LoadBody, Consistent, Begins, LoadingIn;
    if Begins(repo, t, name) {
      BeginsStep(repo, t, name);
    } else {
      LoadStep(repo, t, name);
      if name in repo && repo[name].valid && name !in t {
        FailsEarly(repo, t, name);
        LoadAllInits(repo, t[name := Loading], repo[name].required);
      }
    }
  }

  /** What becomes of a load that begins, in terms of its two lists. */
  lemma BeginsStep(repo: Repository, t: Table, name: Name)
    requires Consistent(repo, t) && Begins(repo, t, name)
    ensures name in repo && name !in t
    ensures var req := LoadAll(repo, t[name := Loading], repo[name].required);
            var opt := LoadAll(repo, req.table, repo[name].optional);
            var error := repo[name].initError;
            && req.error == 0
            && Load(repo, t, name) ==
               Finish(Outcome(error, opt.table, req.inits + opt.inits + [InitCall(name, error)]), name)
  {
    hide Load, LoadAll, Consistent, LoadingIn, UnblockedBy, Loadable, AnswerAll;
    LoadStep(repo, t, name);
    MarkLoading(repo, t, name);
    LoadAllAnswer(repo, t[name := Loading], repo[name].required);
    LoadableAnswers(repo, LoadingIn(t) + {name}, repo[name].required, |repo[name].required|);
  }

  /** A load that does not begin stops with its image or with a required dependency. */
  lemma FailsEarly(repo: Repository, t: Table, name: Name)
    requires Consistent(repo, t) && name in repo && name !in t && !Begins(repo, t, name)
    ensures LoadBody(repo, t[name := Loading], name).inits == []
         || LoadBody(repo, t[name := Loading], name) == LoadAll(repo, t[name := Loading], repo[name].required)
         || !repo[name].valid
  {
    hide LoadAll, Consistent, LoadingIn, Welcome, Answer, AnswerAll;
    var t1, required := t[name := Loading], repo[name].required;
    MarkLoading(repo, t, name);
    LoadAllAnswer(repo, t1, required);
    AnswersExact(repo, LoadingIn(t) + {name}, required, |required|);
    assert required[..|required|] == required;
  }

  /** An answer is 0 exactly for what would load. */
  lemma {:induction false} AnswerExact(repo: Repository, loading: set<Name>, name: Name)
    ensures Answer(repo, loading, name) == 0 <==> Welcome(repo, loading, name)
    decreases |repo.Keys - loading|, 0
  {
    hide Loadable, Reaches, AnswerAll;
    if Welcome(repo, loading, name) {
      LoadableAnswer(repo, loading, name);
    }
    if Answer(repo, loading, name) == 0 {
      var required := repo[name].required;
      assert repo.Keys - (loading + {name}) == (repo.Keys - loading) - {name};
      AnswersExact(repo, loading + {name}, required, |required|);
      assert required[..|required|] == required;
      LoadableIsFixpoint(repo, name);
      assert forall d, m :: d in required && m in loading ==> !Reaches(repo, d, m) by {
        assert forall d :: d in required ==> Welcome(repo, loading + {name}, d);
      }
      forall m | m in loading ensures !Reaches(repo, name, m) {
        if Reaches(repo, name, m) {
          var d := ReachesThrough(repo, name, m);
        }
      }
    }
  }

  lemma ReachesThrough(repo: Repository, a: Name, b: Name) returns (d: Name)
    requires Reaches(repo, a, b) && a != b
    ensures a in repo && d in repo[a].required && Reaches(repo, d, b)
  {
    var k: nat :| ReachesIn(repo, a, b, k);
    d :| d in repo[a].required && ReachesIn(repo, d, b, k - 1);
  }

  lemma {:induction false} AnswersExact(repo: Repository, loading: set<Name>, names: seq<Name>, i: nat)
    requires i <= |names|
    ensures AnswerAll(repo, loading, names, i) <= 0
    ensures AnswerAll(repo, loading, names, i) == 0 <==> forall d :: d in names[..i] ==> Welcome(repo, loading, d)
    decreases |repo.Keys - loading|, i + 1
  {
    hide Answer, Welcome;
    if i > 0 {
      AnswersExact(repo, loading, names, i - 1);
      AnswerExact(repo, loading, names[i - 1]);
      AnswerNotPositive(repo, loading, names[i - 1]);
      assert names[..i] == names[..i - 1] + [names[i - 1]];
    }
  }

  /** The first i names of a list are loaded if each would load. */
  lemma {:induction false} PrefixLoaded(repo: Repository, t: Table, names: seq<Name>, i: nat)
    requires Consistent(repo, t) && i <= |names|
    requires forall k :: 0 <= k < i ==> Welcome(repo, LoadingIn(t), names[k])
    ensures forall k :: 0 <= k < i ==> names[k] in LoadedIn(LoadAll(repo, t, names).table)
    decreases |names|
  {
    hide Load, LoadAll, Consistent, Welcome, LoadingIn, Answer, Extends;
    if i > 0 {
      var first := Load(repo, t, names[0]);
      LoadAllStep(repo, t, names);
      LoadAnswer(repo, t, names[0]);
      AnswerExact(repo, LoadingIn(t), names[0]);
      LoadSound(repo, t, names[0]);
      LoadExtends(repo, t, names[0]);
      ExtendsSameLoading(t, first.table);
      assert forall k :: 0 <= k < i - 1 ==> names[1..][k] == names[k + 1];
      PrefixLoaded(repo, first.table, names[1..], i - 1);
      LoadAllExtends(repo, first.table, names[1..]);
      ExtendsSameLoading(first.table, LoadAll(repo, first.table, names[1..]).table);
      forall k | 0 <= k < i ensures names[k] in LoadedIn(LoadAll(repo, t, names).table) {
        if k > 0 { assert names[k] == names[1..][k - 1]; }
      }
    }
  }

  /** init() runs only for modules that were not in the table. */
  lemma {:induction false} InitsAreNew(repo: Repository, t: Table, name: Name)
    ensures forall c :: c in Load(repo, t, name).inits ==> c.name !in t
    decreases |repo.Keys - t.Keys|, 0
  {
    hide Load, LoadBody;
    LoadStep(repo, t, name);
    if name in repo && repo[name].valid && name !in t {
      MarkSmaller(repo, t, name);
      LoadBodyInits(repo, t[name := Loading], name);
    }
  }

  lemma {:induction false} LoadBodyInits(repo: Repository, t: Table, name: Name)
    requires name in repo && name in t
    ensures forall c :: c in LoadBody(repo, t, name).inits ==> c.name == name || c.name !in t
    decreases |repo.Keys - t.Keys|, |repo[name].required| + |repo[name].optional| + 2
  {
    hide LoadAll;
    var req := LoadAll(repo, t, repo[name].required);
    LoadAllInits(repo, t, repo[name].required);
    SmallerRest(repo.Keys, t.Keys, req.table.Keys);
    LoadAllInits(repo, req.table, repo[name].optional);
  }

  lemma {:induction false} LoadAllInits(repo: Repository, t: Table, names: seq<Name>)
    ensures forall c :: c in LoadAll(repo, t, names).inits ==> c.name !in t
    decreases |repo.Keys - t.Keys|, |names| + 1
  {
    hide Load, LoadAll;
    LoadAllStep(repo, t, names);
    if names != [] {
      var first := Load(repo, t, names[0]);
      InitsAreNew(repo, t, names[0]);
      SmallerRest(repo.Keys, t.Keys, first.table.Keys);
      LoadAllInits(repo, first.table, names[1..]);
    }
  }

  /** The same modules, but name has only the first n of its optional dependencies. */
  function Cut(repo: Repository, name: Name, n: nat): (r: Repository)
    requires name in repo && n <= |repo[name].optional|
    ensures r.Keys == repo.Keys
  {
    repo[name := repo[name].(optional := repo[name].optional[..n])]
  }

  /** Nothing after the first optional dependency that would not load is attempted: the outcome is
      the same without the rest of the list. */
  lemma OptionalsStop(repo: Repository, t: Table, name: Name, i: nat)
    requires Consistent(repo, t) && name in repo && name !in t && i < |repo[name].optional|
    requires !Welcome(repo, LoadingIn(t) + {name}, repo[name].optional[i])
    ensures Load(repo, t, name) == Load(Cut(repo, name, i + 1), t, name)
  {
    hide Load, LoadAll, Consistent, Welcome, LoadingIn;
    var repo', t1, image := Cut(repo, name, i + 1), t[name := Loading], repo[name];
    LoadStep(repo, t, name);
    LoadStep(repo', t, name);
    MarkLoading(repo, t, name);
    LoadAllUnderway(repo, repo', t1, image.required, name);
    var req := LoadAll(repo, t1, image.required);
    LoadAllSound(repo, t1, image.required);
    LoadAllExtends(repo, t1, image.required);
    ExtendsSameLoading(t1, req.table);
    StopsAt(repo, req.table, image.optional, i);
    LoadAllUnderway(repo, repo', req.table, image.optional[..i + 1], name);
  }

  lemma {:induction false} StopsAt(repo: Repository, t: Table, names: seq<Name>, i: nat)
    requires Consistent(repo, t) && i < |names| && !Welcome(repo, LoadingIn(t), names[i])
    ensures LoadAll(repo, t, names) == LoadAll(repo, t, names[..i + 1])
    decreases |names|
  {
    hide Load, LoadAll, Consistent, Welcome, LoadingIn, Answer, Extends;
    var first := Load(repo, t, names[0]);
    LoadAllStep(repo, t, names);
    LoadAllStep(repo, t, names[..i + 1]);
    LoadAnswer(repo, t, names[0]);
    AnswerNotPositive(repo, LoadingIn(t), names[0]);
    AnswerExact(repo, LoadingIn(t), names[0]);
    if first.error == 0 {
      LoadSound(repo, t, names[0]);
      LoadExtends(repo, t, names[0]);
      ExtendsSameLoading(t, first.table);
      assert names[1..][i - 1] == names[i];
      StopsAt(repo, first.table, names[1..], i - 1);
      assert names[1..][..i] == names[..i + 1][1..];
    }
  }

  /** While name is under way, its own lists do not matter. */
  lemma {:induction false} LoadUnderway(repo: Repository, repo': Repository, t: Table, n: Name, name: Name)
    requires name in t && name in repo && name in repo'
    requires repo' == repo[name := repo[name].(optional := repo'[name].optional)]
    ensures Load(repo, t, n) == Load(repo', t, n)
    decreases |repo.Keys - t.Keys|, 0
  {
    hide Load, LoadAll;
    LoadStep(repo, t, n);
    LoadStep(repo', t, n);
    if n in repo && repo[n].valid && n !in t {
      MarkSmaller(repo, t, n);
      var t1, image := t[n := Loading], repo[n];
      LoadAllUnderway(repo, repo', t1, image.required, name);
      var req := LoadAll(repo, t1, image.required);
      SmallerRest(repo.Keys, t1.Keys, req.table.Keys);
      LoadAllUnderway(repo, repo', req.table, image.optional, name);
    }
  }

  lemma {:induction false} LoadAllUnderway(repo: Repository, repo': Repository, t: Table, names: seq<Name>, name: Name)
    requires name in t && name in repo && name in repo'
    requires repo' == repo[name := repo[name].(optional := repo'[name].optional)]
    ensures LoadAll(repo, t, names) == LoadAll(repo', t, names)
    decreases |repo.Keys - t.Keys|, |names| + 1
  {
    hide Load, LoadAll;
    LoadAllStep(repo, t, names);
    LoadAllStep(repo', t, names);
    if names != [] {
      var first := Load(repo, t, names[0]);
      LoadUnderway(repo, repo', t, names[0], name);
      SmallerRest(repo.Keys, t.Keys, first.table.Keys);
      LoadAllUnderway(repo, repo', first.table, names[1..], name);
    }
  }

  // ---------------------------------------------------------------------------------------
  // Cycle detection

  /** Everything name requires, directly or not, exists and is healthy. */
  ghost predicate AllHealthyBelow(repo: Repository, name: Name) {
    forall c :: Reaches(repo, name, c) ==> c in repo && Healthy(repo[c])
  }

  ghost predicate BlockedOrCyclic(repo: Repository, t: Table, name: Name) {
    ReachesCycle(repo, name) || !Unblocked(repo, t, name)
  }

  lemma HealthyBelowStep(repo: Repository, name: Name, d: Name)
    requires AllHealthyBelow(repo, name) && name in repo && d in repo[name].required
    ensures AllHealthyBelow(repo, d)
  {
    forall c | Reaches(repo, d, c) ensures c in repo && Healthy(repo[c]) {
      ReachesStep(repo, name, d, c);
    }
  }

  lemma {:induction false} HealthyLoadError(repo: Repository, t: Table, name: Name)
    requires AllHealthyBelow(repo, name)
    ensures Load(repo, t, name).error == 0
            || (Load(repo, t, name).error == -ELOOP && BlockedOrCyclic(repo, t, name))
    decreases |repo.Keys - t.Keys|, 0
  {
    ReachesSelf(repo, name);
    if name !in t {
      var t1 := t[name := Loading];
      MarkSmaller(repo, t, name);
      forall d | d in repo[name].required ensures AllHealthyBelow(repo, d) {
        HealthyBelowStep(repo, name, d);
      }
      var culprit := HealthyLoadAllError(repo, t1, repo[name].required);
      if LoadAll(repo, t1, repo[name].required).error < 0 {
        CulpritStep(repo, t, name, culprit);
      }
    }
  }

  lemma CulpritStep(repo: Repository, t: Table, name: Name, d: Name)
    requires name in repo && d in repo[name].required
    requires BlockedOrCyclic(repo, t[name := Loading], d)
    ensures BlockedOrCyclic(repo, t, name)
  {
    if ReachesCycle(repo, d) {
      var c, e :| Reaches(repo, d, c) && c in repo && e in repo[c].required && Reaches(repo, e, c);
      ReachesStep(repo, name, d, c);
    } else {
      var t1 := t[name := Loading];
      var m :| m in t1 && t1[m] == Loading && Reaches(repo, d, m);
      if m == name {
        ReachesSelf(repo, name);
      } else {
        ReachesStep(repo, name, d, m);
      }
    }
  }

  lemma {:induction false} HealthyLoadAllError(repo: Repository, t: Table, names: seq<Name>) returns (culprit: Name)
    requires forall d :: d in names ==> AllHealthyBelow(repo, d)
    ensures LoadAll(repo, t, names).error == 0
            || (LoadAll(repo, t, names).error == -ELOOP && culprit in names && BlockedOrCyclic(repo, t, culprit))
    decreases |repo.Keys - t.Keys|, |names| + 1
  {
    culprit := "";
    if names != [] {
      var first := Load(repo, t, names[0]);
      HealthyLoadError(repo, t, names[0]);
      culprit := names[0];
      if first.error >= 0 {
        LoadExtends(repo, t, names[0]);
        ExtendsSameLoading(t, first.table);
        SmallerRest(repo.Keys, t.Keys, first.table.Keys);
        culprit := HealthyLoadAllError(repo, first.table, names[1..]);
        assert forall m :: m in first.table && first.table[m] == Loading ==> m in LoadingIn(t);
      }
    }
  }

  /** The LOADING mark finds exactly the required cycles: with healthy modules a top-level
      load answers 0 or -ELOOP, and -ELOOP if and only if a required cycle is reachable. */
  lemma LoopErrorMeansCycle(repo: Repository, t: Table, name: Name)
    requires Consistent(repo, t) && LoadingIn(t) == {}
    requires AllHealthyBelow(repo, name)
    ensures Load(repo, t, name).error == if ReachesCycle(repo, name) then -ELOOP else 0
  {
    HealthyLoadError(repo, t, name);
    assert forall m :: m in t && t[m] == Loading ==> m in LoadingIn(t);
    if ReachesCycle(repo, name) && Load(repo, t, name).error == 0 {
      LoadExact(repo, t, name);
      var c, d :| Reaches(repo, name, c) && c in repo && d in repo[c].required && Reaches(repo, d, c);
      LoadableBelow(repo, name, c);
      LoadableHasNoCycle(repo, c, d);
    }
  }

  lemma LoadableBelow(repo: Repository, a: Name, b: Name)
    requires Loadable(repo, a) && Reaches(repo, a, b)
    ensures Loadable(repo, b)
  {
    var k: nat :| a in Stage(repo, k);
    var j: nat :| ReachesIn(repo, a, b, j);
    ReachesDescends(repo, a, b, k, j);
  }

  // ---------------------------------------------------------------------------------------
  // The order of init() calls

  /** inits is a legal history that takes the LOADED set from `before` to `after`: each
      init() runs when all required dependencies of its module are LOADED and the module
      itself is not, and only a successful one makes it LOADED. */
  ghost predicate LegalHistory(repo: Repository, before: set<Name>, inits: seq<InitCall>, after: set<Name>)
    decreases |inits|
  {
    if inits == [] then before == after
    else
      var call := inits[0];
      && call.name in repo
      && call.error == repo[call.name].initError
      && call.name !in before
      && (forall d :: d in repo[call.name].required ==> d in before)
      && LegalHistory(repo, if call.error < 0 then before else before + {call.name}, inits[1..], after)
  }

  lemma {:induction false} HistoryConcat(repo: Repository, a: set<Name>, x: seq<InitCall>, b: set<Name>,
                                         y: seq<InitCall>, c: set<Name>)
    requires LegalHistory(repo, a, x, b) && LegalHistory(repo, b, y, c)
    ensures LegalHistory(repo, a, x + y, c)
    decreases |x|
  {
    if x == [] {
      assert x + y == y;
    } else {
      var a' := if x[0].error < 0 then a else a + {x[0].name};
      HistoryConcat(repo, a', x[1..], b, y, c);
      assert (x + y)[1..] == x[1..] + y;
    }
  }

  lemma {:induction false} LoadHistory(repo: Repository, t: Table, name: Name)
    requires Consistent(repo, t)
    ensures var r := Load(repo, t, name); LegalHistory(repo, LoadedIn(t), r.inits, LoadedIn(r.table))
    decreases |repo.Keys - t.Keys|, 0
  {
    hide Load, LoadBody, Consistent, LegalHistory, Extends, LoadedIn, LoadingIn;
    LoadStep(repo, t, name);
    NoHistory(repo, LoadedIn(t));
    if name in repo && repo[name].valid && name !in t {
      var t1 := t[name := Loading];
      MarkSmaller(repo, t, name);
      MarkLoading(repo, t, name);
      LoadBodyHistory(repo, t1, name);
      LoadBodyExtends(repo, t1, name);
      StillLoading(t1, LoadBody(repo, t1, name).table, name);
      FinishLoadedIn(LoadBody(repo, t1, name), name);
    }
  }

  lemma {:induction false} LoadBodyHistory(repo: Repository, t: Table, name: Name)
    requires name in repo && name in t && t[name] == Loading && Consistent(repo, t)
    ensures var r := LoadBody(repo, t, name);
            var after := LoadedIn(r.table);
            LegalHistory(repo, LoadedIn(t), r.inits, if r.error < 0 then after else after + {name})
    decreases |repo.Keys - t.Keys|, |repo[name].required| + |repo[name].optional| + 2
  {
    var image := repo[name];
    var r := LoadBody(repo, t, name);
    if image.loadError < 0 || !image.exportsInit || !image.exportsDestroy || image.dependenciesError < 0 {
      assert r.error < 0 && r.table == t && r.inits == [];
      return;
    }
    var req := LoadAll(repo, t, image.required);
    LoadAllHistory(repo, t, image.required);
    if req.error < 0 {
      assert r == req;
    } else {
      LoadAllSound(repo, t, image.required);
      SmallerRest(repo.Keys, t.Keys, req.table.Keys);
      var opt := LoadAll(repo, req.table, image.optional);
      LoadAllHistory(repo, req.table, image.optional);
      RequiredStayLoaded(repo, t, image.required, image.optional, name);
      var call := InitCall(name, image.initError);
      BodyHistory(repo, LoadedIn(t), req.inits, LoadedIn(req.table), opt.inits, LoadedIn(opt.table), call);
      assert r == Outcome(image.initError, opt.table, req.inits + opt.inits + [call]);
    }
  }

  lemma RequiredStayLoaded(repo: Repository, t: Table, required: seq<Name>, optional: seq<Name>, name: Name)
    requires Consistent(repo, t) && name in t && t[name] == Loading
    requires LoadAll(repo, t, required).error >= 0
    ensures var t' := LoadAll(repo, LoadAll(repo, t, required).table, optional).table;
            name !in LoadedIn(t') && forall d :: d in required ==> d in LoadedIn(t')
  {
    LoadAllSound(repo, t, required);
    LoadAllExtends(repo, t, required);
    LoadAllExtends(repo, LoadAll(repo, t, required).table, optional);
  }

  lemma BodyHistory(repo: Repository, a: set<Name>, x: seq<InitCall>, b: set<Name>, y: seq<InitCall>,
                    c: set<Name>, call: InitCall)
    requires LegalHistory(repo, a, x, b) && LegalHistory(repo, b, y, c)
    requires call.name in repo && call.error == repo[call.name].initError && call.name !in c
    requires forall d :: d in repo[call.name].required ==> d in c
    ensures LegalHistory(repo, a, x + y + [call], if call.error < 0 then c else c + {call.name})
  {
    HistoryConcat(repo, a, x, b, y, c);
    OneCallHistory(repo, c, call);
    HistoryConcat(repo, a, x + y, c, [call], if call.error < 0 then c else c + {call.name});
  }

  lemma OneCallHistory(repo: Repository, before: set<Name>, call: InitCall)
    requires call.name in repo && call.error == repo[call.name].initError && call.name !in before
    requires forall d :: d in repo[call.name].required ==> d in before
    ensures LegalHistory(repo, before, [call], if call.error < 0 then before else before + {call.name})
  {
    assert [call][1..] == [];
  }

  lemma {:induction false} LoadAllHistory(repo: Repository, t: Table, names: seq<Name>)
    requires Consistent(repo, t)
    ensures var r := LoadAll(repo, t, names); LegalHistory(repo, LoadedIn(t), r.inits, LoadedIn(r.table))
    decreases |repo.Keys - t.Keys|, |names| + 1
  {
    if names != [] {
      var first := Load(repo, t, names[0]);
      LoadHistory(repo, t, names[0]);
      if first.error >= 0 {
        LoadSound(repo, t, names[0]);
        SmallerRest(repo.Keys, t.Keys, first.table.Keys);
        var rest := LoadAll(repo, first.table, names[1..]);
        LoadAllHistory(repo, first.table, names[1..]);
        HistoryConcat(repo, LoadedIn(t), first.inits, LoadedIn(first.table), rest.inits, LoadedIn(rest.table));
      }
    }
  }

  /** In a legal history no module's init() succeeds twice, not even with calls in between. */
  lemma {:induction false} NoSecondSuccess(repo: Repository, before: set<Name>, inits: seq<InitCall>,
                                           after: set<Name>, i: nat, j: nat)
    requires LegalHistory(repo, before, inits, after)
    requires i < j < |inits| && inits[i].error >= 0
    ensures inits[i].name != inits[j].name
    decreases |inits|
  {
    var before' := if inits[0].error < 0 then before else before + {inits[0].name};
    if i > 0 {
      NoSecondSuccess(repo, before', inits[1..], after, i - 1, j - 1);
    } else {
      LoadedNeverInits(repo, before', inits[1..], after, j - 1);
    }
  }

  lemma {:induction false} LoadedNeverInits(repo: Repository, before: set<Name>, inits: seq<InitCall>,
                                            after: set<Name>, j: nat)
    requires LegalHistory(repo, before, inits, after) && j < |inits|
    ensures inits[j].name !in before
    decreases |inits|
  {
    if j > 0 {
      var before' := if inits[0].error < 0 then before else before + {inits[0].name};
      LoadedNeverInits(repo, before', inits[1..], after, j - 1);
    }
  }

  // ---------------------------------------------------------------------------------------
  // Whole runs of top-level loads

  datatype Run = Run(errors: seq<int>, table: Table, inits: seq<InitCall>)

  /** load_module called for each name in turn, starting with an empty table. */
  ghost function RunOf(repo: Repository, names: seq<Name>): (r: Run)
    ensures |r.errors| == |names|
  {
    if names == [] then Run([], map[], [])
    else Continue(repo, RunOf(repo, names[..|names| - 1]), names[|names| - 1])
  }

  ghost function Continue(repo: Repository, before: Run, name: Name): Run {
    var r := Load(repo, before.table, name);
    Run(before.errors + [r.error], r.table, before.inits + r.inits)
  }

  /** What one top-level load does to a table with nothing under way and to the init()
      history that led to that table. */
  lemma TopLevelLoad(repo: Repository, t: Table, inits: seq<InitCall>, name: Name)
    requires Consistent(repo, t) && LoadingIn(t) == {}
    requires LegalHistory(repo, {}, inits, LoadedIn(t))
    ensures var r := Load(repo, t, name);
            && Consistent(repo, r.table)
            && LoadingIn(r.table) == {}
            && LoadedIn(t) <= LoadedIn(r.table)
            && LegalHistory(repo, {}, inits + r.inits, LoadedIn(r.table))
            && r.error == Answer(repo, {}, name)
            && (r.error == 0 <==> Loadable(repo, name))
            && (r.error == 0 ==> name in LoadedIn(r.table))
  {
    var r := Load(repo, t, name);
    LoadSound(repo, t, name);
    LoadExtends(repo, t, name);
    ExtendsSameLoading(t, r.table);
    LoadExact(repo, t, name);
    assert forall m :: m in t && t[m] == Loading ==> m in LoadingIn(t);
    LoadAnswer(repo, t, name);
    LoadHistory(repo, t, name);
    HistoryConcat(repo, {}, inits, LoadedIn(t), r.inits, LoadedIn(r.table));
  }

  /** Each answer depends on the name alone, nothing stays LOADING, and all the init() calls
      of the run together form one legal history from nothing LOADED. */
  ghost predicate RunIsRight(repo: Repository, names: seq<Name>, r: Run)
    requires |r.errors| == |names|
  {
    && Consistent(repo, r.table)
    && LoadingIn(r.table) == {}
    && LegalHistory(repo, {}, r.inits, LoadedIn(r.table))
    && (forall i :: 0 <= i < |names| ==> r.errors[i] == Answer(repo, {}, names[i]))
    && (forall i :: 0 <= i < |names| ==> (r.errors[i] == 0 <==> Loadable(repo, names[i])))
    && (forall i :: 0 <= i < |names| && r.errors[i] == 0 ==> names[i] in LoadedIn(r.table))
  }

  lemma {:induction false} RunCorrect(repo: Repository, names: seq<Name>)
    ensures RunIsRight(repo, names, RunOf(repo, names))
    decreases |names|
  {
    if names == [] {
      assert LoadingIn(map[]) == LoadedIn(map[]) == {};
    } else {
      var front := names[..|names| - 1];
      RunCorrect(repo, front);
      ContinueCorrect(repo, front, RunOf(repo, front), names[|front|]);
      assert names == front + [names[|front|]];
    }
  }

  lemma ContinueCorrect(repo: Repository, names: seq<Name>, before: Run, name: Name)
    requires |before.errors| == |names| && RunIsRight(repo, names, before)
    ensures RunIsRight(repo, names + [name], Continue(repo, before, name))
  {
    TopLevelLoad(repo, before.table, before.inits, name);
  }

  // ---------------------------------------------------------------------------------------
  // The loader in the kernel's own form

  class ModuleManager {
    const repo: Repository
    var table: Table
    ghost var inits: seq<InitCall>

    constructor (repo: Repository)
      ensures this.repo == repo && table == map[] && inits == []
    {
      this.repo := repo;
      table := map[];
      inits := [];
    }

    /** do_load_module_dependencies: a loop over the array that stops at the first failure. */
    method LoadDependencies(dependencies: seq<Name>) returns (error: int)
      modifies this
      ensures var r := LoadAll(repo, old(table), dependencies);
              error == r.error && table == r.table && inits == old(inits) + r.inits
      decreases |repo.Keys - table.Keys|, |dependencies| + 1
    {
      ghost var whole := LoadAll(repo, table, dependencies);
      error := 0;
      var i := 0;
      while i < |dependencies|
        invariant 0 <= i <= |dependencies| && error == 0
        invariant old(table).Keys <= table.Keys
        invariant WalkRest(repo, whole, old(inits), table, inits, dependencies[i..])
      {
        SmallerRest(repo.Keys, old(table).Keys, table.Keys);
        WalkStep(repo, whole, old(inits), table, inits, dependencies[i..]);
        LoadExtends(repo, table, dependencies[i]);
        error := LoadModule(dependencies[i]);
        if error < 0 {
          return;
        }
        assert dependencies[i..][1..] == dependencies[i + 1..];
        i := i + 1;
      }
    }

    /** do_load_module, with its roll-back of the table entry. */
    method LoadModule(name: Name) returns (error: int)
      modifies this
      ensures var r := Load(repo, old(table), name);
              error == r.error && table == r.table && inits == old(inits) + r.inits
      decreases |repo.Keys - table.Keys|, 0
    {
      if name !in repo {
        return -ENOENT;
      }
      if !repo[name].valid {
        return -EINVAL;
      }
      if name in table {
        return if table[name] == Loading then -ELOOP else 0;
      }
      assert repo.Keys - table[name := Loading].Keys == (repo.Keys - table.Keys) - {name};
      table := table[name := Loading];
      error := LoadMarked(name);
      if error < 0 {
        table := table - {name};
      } else {
        table := table[name := Loaded];
        error := 0;
      }
    }

    /** The part of do_load_module that runs while the entry is LOADING. */
    method LoadMarked(name: Name) returns (error: int)
      requires name in repo && name in table
      modifies this
      ensures var r := LoadBody(repo, old(table), name);
              error == r.error && table == r.table && inits == old(inits) + r.inits
      decreases |repo.Keys - table.Keys|, |repo[name].required| + |repo[name].optional| + 2
    {
      var image := repo[name];
      if image.loadError < 0 {
        return image.loadError;
      }
      if !image.exportsInit || !image.exportsDestroy {
        return -ENOENT;
      }
      if image.dependenciesError < 0 {
        return image.dependenciesError;
      }
      error := LoadDependencies(image.required);
      if error < 0 {
        return;
      }
      SmallerRest(repo.Keys, old(table).Keys, table.Keys);
      var ignored := LoadDependencies(image.optional);
      error := image.initError;
      inits := inits + [InitCall(name, error)];
    }

    /** load_module as the rest of the kernel calls it: nothing is being loaded. */
    method LoadTopLevel(name: Name) returns (error: int)
      requires Consistent(repo, table) && LoadingIn(table) == {}
      requires LegalHistory(repo, {}, inits, LoadedIn(table))
      modifies this
      ensures error == Answer(repo, {}, name) && (error == 0 <==> Loadable(repo, name))
      ensures error == 0 ==> name in LoadedIn(table)
      ensures Consistent(repo, table) && LoadingIn(table) == {} && LoadedIn(old(table)) <= LoadedIn(table)
      ensures LegalHistory(repo, {}, inits, LoadedIn(table))
    {
      TopLevelLoad(repo, table, inits, name);
      error := LoadModule(name);
    }
  }

  /** The loop invariant of LoadDependencies: what is left to load from here completes the
      outcome that the whole array has. */
  ghost predicate WalkRest(repo: Repository, whole: Outcome, inits0: seq<InitCall>,
                           t: Table, inits: seq<InitCall>, names: seq<Name>)
  {
    var rest := LoadAll(repo, t, names);
    whole.error == rest.error && whole.table == rest.table && inits0 + whole.inits == inits + rest.inits
  }

  lemma WalkStep(repo: Repository, whole: Outcome, inits0: seq<InitCall>,
                 t: Table, inits: seq<InitCall>, names: seq<Name>)
    requires names != [] && WalkRest(repo, whole, inits0, t, inits, names)
    ensures var r := Load(repo, t, names[0]);
            if r.error < 0 then
              whole.error == r.error && whole.table == r.table && inits0 + whole.inits == inits + r.inits
            else
              WalkRest(repo, whole, inits0, r.table, inits + r.inits, names[1..])
  {
    var r := Load(repo, t, names[0]);
    if r.error >= 0 {
      var rest := LoadAll(repo, r.table, names[1..]);
      assert inits + (r.inits + rest.inits) == (inits + r.inits) + rest.inits;
    }
  }
}
