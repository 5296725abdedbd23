/** The users of project macros, spread through nested macro bodies until nothing changes. */
module MacroUsers {
  // A macro definition is keyed by its file and line; several definitions may share a name.  A function that
  // uses a macro also uses every macro named in its body.

  /** `bodies` lists each definition once, with the tokens of its body in order; `names` maps a macro name to the
      definitions that carry it. */
  datatype Project<Key(!new)> = Project(bodies: seq<(Key, seq<string>)>, names: map<string, seq<Key>>) {

    ghost predicate Valid(direct: map<Key, set<nat>>) {
      && (forall i :: 0 <= i < |bodies| ==> bodies[i].0 in direct)
      && (forall name, i :: name in names && 0 <= i < |names[name]| ==> names[name][i] in direct)
    }

    function Targets(token: string): (r: seq<Key>) {
      if token in names then names[token] else []
    }

    /** Token `t` of body `i` is the name of the definition `other`, which stands anywhere among those of the name. */
    ghost predicate Names(i: nat, t: nat, other: Key)
      requires i < |bodies| && t < |bodies[i].1|
    {
      var token := bodies[i].1[t];
      token in names && exists j :: 0 <= j < |names[token]| && names[token][j] == other
    }

    /** The body of `key` names the definition `other`. */
    ghost predicate Mentions(key: Key, other: Key) {
      exists i: nat, t: nat :: i < |bodies| && bodies[i].0 == key && t < |bodies[i].1| && Names(i, t, other)
    }

    /** A chain of mentions from the first definition to the last. */
    ghost predicate Chain(path: seq<Key>) {
      && path != []
      && forall i :: 0 <= i < |path| - 1 ==> Mentions(path[i], path[i + 1])
    }
  }

  type Users<Key> = map<Key, set<nat>>

  /** `f` uses some definition from which a chain of mentions leads to `key`. */
  ghost predicate Reached<Key(!new)>(p: Project<Key>, direct: Users<Key>, key: Key, f: nat) {
    exists path: seq<Key> :: p.Chain(path) && path[|path| - 1] == key && path[0] in direct && f in direct[path[0]]
  }

  /** Every user of a definition is a user of what its body mentions. */
  ghost predicate Closed<Key(!new)>(p: Project<Key>, users: Users<Key>) {
    forall a, b, f :: a in users && b in users && p.Mentions(a, b) && f in users[a] ==> f in users[b]
  }

  ghost predicate Below<Key(!new)>(small: Users<Key>, large: Users<Key>) {
    small.Keys == large.Keys && forall k :: k in small ==> small[k] <= large[k]
  }

  ghost predicate OnlyReached<Key(!new)>(p: Project<Key>, direct: Users<Key>, users: Users<Key>) {
    forall k, f :: k in users && f in users[k] ==> Reached(p, direct, k, f)
  }

  // ---- what every update keeps ----

  ghost function AllUsers<Key(!new)>(users: Users<Key>): (r: set<nat>)
    ensures forall k :: k in users ==> users[k] <= r
  {
    set k, f | k in users && f in users[k] :: f
  }

  /** The pairs not recorded yet: the loop's termination measure. */
  ghost function Missing<Key(!new)>(universe: set<nat>, users: Users<Key>): (r: set<(Key, nat)>) {
    set k, f | k in users && f in universe && f !in users[k] :: (k, f)
  }

  ghost predicate Keeps<Key(!new)>(p: Project<Key>, direct: Users<Key>, users: Users<Key>) {
    && Below(direct, users)
    && OnlyReached(p, direct, users)
    && (forall k :: k in users ==> users[k] <= AllUsers(direct))
  }

  /** One stretch of the loop: nothing changed, or the missing pairs shrank. */
  ghost predicate Progress<Key(!new)>(p: Project<Key>, direct: Users<Key>, before: Users<Key>, after: Users<Key>,
                               changed: bool) {
    && Keeps(p, direct, after)
    && (!changed ==> after == before)
    && (changed ==> Missing(AllUsers(direct), after) < Missing(AllUsers(direct), before))
  }

  lemma ReachFurther<Key(!new)>(p: Project<Key>, direct: Users<Key>, key: Key, other: Key, f: nat)
    requires Reached(p, direct, key, f) && p.Mentions(key, other)
    ensures Reached(p, direct, other, f)
  {
    var path: seq<Key> :| p.Chain(path) && path[|path| - 1] == key && path[0] in direct && f in direct[path[0]];
    var longer := path + [other];
    assert p.Chain(longer);
    assert longer[|longer| - 1] == other && longer[0] == path[0];
  }

  lemma UnionReached<Key(!new)>(p: Project<Key>, direct: Users<Key>, users: Users<Key>, key: Key, other: Key)
    requires OnlyReached(p, direct, users) && key in users && other in users && p.Mentions(key, other)
    ensures OnlyReached(p, direct, users[other := users[other] + users[key]])
  {
    hide Reached;
    var after := users[other := users[other] + users[key]];
    forall k, f | k in after && f in after[k]
      ensures Reached(p, direct, k, f)
    {
      if k == other && f !in users[other] { ReachFurther(p, direct, key, other, f); }
    }
  }

  lemma UnionShrinks<Key(!new)>(universe: set<nat>, users: Users<Key>, key: Key, other: Key)
    requires key in users && other in users && !(users[key] <= users[other]) && users[key] <= universe
    ensures Missing(universe, users[other := users[other] + users[key]]) < Missing(universe, users)
  {
    var f :| f in users[key] && f !in users[other];
    assert (other, f) in Missing(universe, users);
    assert (other, f) !in Missing(universe, users[other := users[other] + users[key]]);
  }

  lemma UnionKeeps<Key(!new)>(p: Project<Key>, direct: Users<Key>, users: Users<Key>, key: Key, other: Key)
    requires Keeps(p, direct, users) && key in users && other in users && p.Mentions(key, other)
    requires !(users[key] <= users[other])
    ensures Progress(p, direct, users, users[other := users[other] + users[key]], true)
  {
    hide OnlyReached;
    hide Missing;
    UnionReached(p, direct, users, key, other);
    UnionShrinks(AllUsers(direct), users, key, other);
  }

  lemma ProgressChains<Key(!new)>(p: Project<Key>, direct: Users<Key>, a: Users<Key>, b: Users<Key>, c: Users<Key>,
                           ab: bool, bc: bool)
    requires Progress(p, direct, a, b, ab) && Progress(p, direct, b, c, bc)
    ensures Progress(p, direct, a, c, ab || bc)
  {
  }

  // ---- one pass ----

  /** Adds the users of `key` to every definition that carries the name `token`. */
  method SpreadToken<Key(==,!new)>(p: Project<Key>, ghost direct: Users<Key>, start: Users<Key>, key: Key,
                         token: string)
    returns (users: Users<Key>, changed: bool)
    requires p.Valid(direct) && Keeps(p, direct, start) && key in start
    requires forall other :: other in p.Targets(token) ==> p.Mentions(key, other)
    ensures Progress(p, direct, start, users, changed)
    ensures !changed ==> forall other :: other in p.Targets(token) ==> other in users && users[key] <= users[other]
  {
    users, changed := start, false;
    var targets := p.Targets(token);
    for j := 0 to |targets|
      invariant Progress(p, direct, start, users, changed)
      invariant !changed ==> forall i :: 0 <= i < j ==> targets[i] in users && users[key] <= users[targets[i]]
    {
      var other := targets[j];
      assert other in p.Targets(token) && other in direct;
      if other != key && !(users[key] <= users[other]) {
        UnionKeeps(p, direct, users, key, other);
        ProgressChains(p, direct, start, users, users[other := users[other] + users[key]], changed, true);
        users := users[other := users[other] + users[key]];
        changed := true;
      }
    }
  }

  /** Everything the body at `i` names has the users of that body's macro. */
  ghost predicate BodyClosed<Key(!new)>(p: Project<Key>, users: Users<Key>, i: nat, tokens: nat)
    requires i < |p.bodies| && tokens <= |p.bodies[i].1|
  {
    && p.bodies[i].0 in users
    && forall t, other :: 0 <= t < tokens && other in p.Targets(p.bodies[i].1[t]) ==>
         other in users && users[p.bodies[i].0] <= users[other]
  }

  /** The lookup finds every definition of the name, and nothing else. */
  lemma TargetsAreNamed<Key(!new)>(p: Project<Key>, i: nat, t: nat, other: Key)
    requires i < |p.bodies| && t < |p.bodies[i].1|
    ensures other in p.Targets(p.bodies[i].1[t]) <==> p.Names(i, t, other)
  {
  }

  lemma TokenMentions<Key(!new)>(p: Project<Key>, i: nat, t: nat)
    requires i < |p.bodies| && t < |p.bodies[i].1|
    ensures forall other :: other in p.Targets(p.bodies[i].1[t]) ==> p.Mentions(p.bodies[i].0, other)
  {
    forall other | other in p.Targets(p.bodies[i].1[t])
      ensures p.Mentions(p.bodies[i].0, other)
    {
      TargetsAreNamed(p, i, t, other);
    }
  }

  method SpreadBody<Key(==,!new)>(p: Project<Key>, ghost direct: Users<Key>, start: Users<Key>, i: nat)
    returns (users: Users<Key>, changed: bool)
    requires p.Valid(direct) && Keeps(p, direct, start) && i < |p.bodies|
    ensures Progress(p, direct, start, users, changed)
    ensures !changed ==> BodyClosed(p, users, i, |p.bodies[i].1|)
  {
    hide OnlyReached;
    hide Missing;
    hide p.Mentions;
    users, changed := start, false;
    var key, tokens := p.bodies[i].0, p.bodies[i].1;
    for t := 0 to |tokens|
      invariant Progress(p, direct, start, users, changed)
      invariant !changed ==> BodyClosed(p, users, i, t)
    {
      TokenMentions(p, i, t);
      var next, more := SpreadToken(p, direct, users, key, tokens[t]);
      ProgressChains(p, direct, start, users, next, changed, more);
      users, changed := next, changed || more;
    }
  }

  method SpreadAll<Key(==,!new)>(p: Project<Key>, ghost direct: Users<Key>, start: Users<Key>)
    returns (users: Users<Key>, changed: bool)
    requires p.Valid(direct) && Keeps(p, direct, start)
    ensures Progress(p, direct, start, users, changed)
    ensures !changed ==> Closed(p, users)
  {
    users, changed := start, false;
    for i := 0 to |p.bodies|
      invariant Progress(p, direct, start, users, changed)
      invariant !changed ==> forall j :: 0 <= j < i ==> BodyClosed(p, users, j, |p.bodies[j].1|)
    {
      var next, more := SpreadBody(p, direct, users, i);
      ProgressChains(p, direct, start, users, next, changed, more);
      users, changed := next, changed || more;
    }
    if !changed { PassCloses(p, users); }
  }

  lemma PassCloses<Key(!new)>(p: Project<Key>, users: Users<Key>)
    requires forall j :: 0 <= j < |p.bodies| ==> BodyClosed(p, users, j, |p.bodies[j].1|)
    ensures Closed(p, users)
  {
    forall a, b, f | a in users && b in users && p.Mentions(a, b) && f in users[a]
      ensures f in users[b]
    {
      var i: nat, t: nat :| i < |p.bodies| && p.bodies[i].0 == a && t < |p.bodies[i].1| && p.Names(i, t, b);
      TargetsAreNamed(p, i, t, b);
      assert BodyClosed(p, users, i, |p.bodies[i].1|);
    }
  }

  // ---- the fixpoint ----

  lemma {:induction false} ClosedHoldsChain<Key(!new)>(p: Project<Key>, direct: Users<Key>, users: Users<Key>,
                                                path: seq<Key>, f: nat)
    requires p.Valid(direct) && Below(direct, users) && Closed(p, users)
    requires p.Chain(path) && path[0] in direct && f in direct[path[0]]
    ensures path[|path| - 1] in users && f in users[path[|path| - 1]]
    decreases |path|
  {
    if |path| > 1 {
      var init := path[..|path| - 1];
      assert p.Chain(init);
      ClosedHoldsChain(p, direct, users, init, f);
      assert p.Mentions(path[|path| - 2], path[|path| - 1]);
    }
  }

  /** The loop's result: it terminates, and afterwards the users of each definition are exactly the direct users of the
      definitions that reach it. */
  method Spread<Key(==,!new)>(p: Project<Key>, direct: Users<Key>) returns (users: Users<Key>)
    requires p.Valid(direct)
    ensures users.Keys == direct.Keys
    ensures forall k, f :: k in users ==> (f in users[k] <==> Reached(p, direct, k, f))
  {
    users := direct;
    DirectKept(p, direct);
    var changed := true;
    while changed
      invariant Keeps(p, direct, users)
      invariant !changed ==> Closed(p, users)
      decreases Missing(AllUsers(direct), users), changed
    {
      users, changed := SpreadAll(p, direct, users);
    }
    forall k, f | k in users && Reached(p, direct, k, f)
      ensures f in users[k]
    {
      var path: seq<Key> :| p.Chain(path) && path[|path| - 1] == k && path[0] in direct && f in direct[path[0]];
      ClosedHoldsChain(p, direct, users, path, f);
    }
  }

  lemma DirectKept<Key(!new)>(p: Project<Key>, direct: Users<Key>)
    ensures Keeps(p, direct, direct)
  {
    forall k, f | k in direct && f in direct[k]
      ensures Reached(p, direct, k, f)
    {
      assert p.Chain([k]);
    }
  }

  /** The result is the least closed assignment above the direct users. */
  lemma LeastClosed<Key(!new)>(p: Project<Key>, direct: Users<Key>, users: Users<Key>, other: Users<Key>)
    requires p.Valid(direct) && users.Keys == direct.Keys
    requires forall k, f :: k in users ==> (f in users[k] <==> Reached(p, direct, k, f))
    requires Below(direct, other) && Closed(p, other)
    ensures Closed(p, users) && Below(direct, users) && Below(users, other)
  {
    forall a, b, f | a in users && b in users && p.Mentions(a, b) && f in users[a]
      ensures f in users[b]
    {
      ReachFurther(p, direct, a, b, f);
    }
    DirectKept(p, direct);
    forall k, f | k in users && f in users[k]
      ensures f in other[k]
    {
      var path: seq<Key> :| p.Chain(path) && path[|path| - 1] == k && path[0] in direct && f in direct[path[0]];
      ClosedHoldsChain(p, direct, other, path, f);
    }
  }

  /** The order in which definitions, tokens and same-named definitions are visited does not matter: two projects with
      the same mentions have the same users. */
  lemma OrderIrrelevant<Key(!new)>(p: Project<Key>, q: Project<Key>, direct: Users<Key>, users: Users<Key>,
                            users': Users<Key>)
    requires users.Keys == direct.Keys && users'.Keys == direct.Keys
    requires forall a, b :: p.Mentions(a, b) <==> q.Mentions(a, b)
    requires forall k, f :: k in users ==> (f in users[k] <==> Reached(p, direct, k, f))
    requires forall k, f :: k in users' ==> (f in users'[k] <==> Reached(q, direct, k, f))
    ensures users == users'
  {
    forall k, f | k in direct
      ensures Reached(p, direct, k, f) <==> Reached(q, direct, k, f)
    {
      SameReach(p, q, direct, k, f);
      SameReach(q, p, direct, k, f);
    }
    forall k | k in users
      ensures users[k] == users'[k]
    {
      forall f ensures f in users[k] <==> f in users'[k] { }
    }
  }

  lemma SameReach<Key(!new)>(p: Project<Key>, q: Project<Key>, direct: Users<Key>, k: Key, f: nat)
    requires forall a, b :: p.Mentions(a, b) <==> q.Mentions(a, b)
    ensures Reached(p, direct, k, f) ==> Reached(q, direct, k, f)
  {
    if Reached(p, direct, k, f) {
      var path: seq<Key> :| p.Chain(path) && path[|path| - 1] == k && path[0] in direct && f in direct[path[0]];
      assert q.Chain(path);
    }
  }
}
