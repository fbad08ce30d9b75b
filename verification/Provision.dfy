/** Provisioning a run's space, or attaching to it: what is checked before anything is
    written, and what a kill between two statements leaves for later launches. */
module Provision {
  import opened Options
  import opened Space

  // ------------------------------------------------------------------ the statements

  /** What stands in the database for one space: its principal, how many of its pack's
      statements were run, and its scopes. */
  datatype Built = Built(principal: bool, pack: nat, scopes: set<string>)

  /** A launch whose keys were accepted: the scope ids in the order they are written, and how
      many statements were done when it was killed, if it was. */
  datatype Attempt = Attempt(ids: seq<string>, kill: Option<nat>)

  function Listed(ids: seq<string>, done: nat): set<string> {
    set i | 0 <= i < |ids| && i < done :: ids[i]
  }

  /** The first `done` statements: the space, its principal, the pack, the scopes. */
  function Begun(done: nat, pack: nat, ids: seq<string>): Option<Built> {
    if done == 0 then None
    else if done == 1 then Some(Built(false, 0, {}))
    else if done < 2 + pack then Some(Built(true, done - 2, {}))
    else Some(Built(true, pack, Listed(ids, done - 2 - pack)))
  }

  /** Attaching writes scopes only, and they name a principal, which must be there. */
  function Attached(b: Built, done: nat, ids: seq<string>): Built {
    if b.principal then b.(scopes := b.scopes + Listed(ids, done)) else b
  }

  function Statements(a: Attempt, pack: nat): nat {
    if a.kill.Some? then a.kill.value else 2 + pack + |a.ids|
  }

  function Next(s: Option<Built>, a: Attempt, pack: nat): Option<Built> {
    if s.None? then Begun(Statements(a, pack), pack, a.ids) else Some(Attached(s.value, Statements(a, pack), a.ids))
  }

  datatype Provisioned =
    | Ready(space: string)
    | Unusable(name: string)
    | Collision(first: string, second: string, scope: string)
    | NoPrincipal(space: string)
    | Killed

  /** A launch attaches to whatever space it finds. */
  function Outcome(s: Option<Built>, a: Attempt, space: string): Provisioned {
    if a.kill.Some? then Killed
    else if s.Some? && !s.value.principal && a.ids != [] then NoPrincipal(space)
    else Ready(space)
  }

  lemma {:induction false} ListedSize(ids: seq<string>, done: nat)
    requires done <= |ids| && forall i, j :: 0 <= i < j < |ids| ==> ids[i] != ids[j]
    ensures |Listed(ids, done)| == done
  {
    if done == 0 {
      assert Listed(ids, 0) == {};
    } else {
      ListedSize(ids, done - 1);
      assert Listed(ids, done) == Listed(ids, done - 1) + {ids[done - 1]};
    }
  }

  /** Each statement adds one thing: the space, its principal, a statement of the pack, and
      when the pack is whole a scope, in the order of the ids. */
  lemma OneThingEach(done: nat, pack: nat, ids: seq<string>)
    requires done <= 2 + pack + |ids| && forall i, j :: 0 <= i < j < |ids| ==> ids[i] != ids[j]
    ensures Begun(done, pack, ids).Some? <==> done > 0
    ensures done > 0 ==> var b := Begun(done, pack, ids).value;
      && done == 1 + (if b.principal then 1 else 0) + b.pack + |b.scopes|
      && (b.pack > 0 ==> b.principal) && b.pack <= pack
      && (b.scopes != {} ==> b.pack == pack && b.principal)
      && forall i :: 0 <= i < |ids| ==> (ids[i] in b.scopes <==> i < |b.scopes|)
  {
    if done >= 2 + pack {
      ListedSize(ids, done - 2 - pack);
    }
  }

  /** Told that it is ready, a launch has its scopes; refused for want of a principal, it had
      some to write and wrote nothing. */
  lemma ReadyMeans(s: Option<Built>, a: Attempt, space: string, pack: nat)
    requires a.kill.None?
    ensures Outcome(s, a, space) == Ready(space) || Outcome(s, a, space) == NoPrincipal(space)
    ensures Outcome(s, a, space).Ready? <==>
      && Next(s, a, pack).Some?
      && forall i :: 0 <= i < |a.ids| ==>
           a.ids[i] in Next(s, a, pack).value.scopes && Next(s, a, pack).value.principal
    ensures Outcome(s, a, space).NoPrincipal? ==> s.Some? && Next(s, a, pack) == s
  {
    AllListed(a.ids, 2 + pack + |a.ids|);
    forall i | 0 <= i < |a.ids|
      ensures a.ids[i] in Listed(a.ids, |a.ids|)
    {
    }
    if s.Some? && !s.value.principal && a.ids != [] {
      assert a.ids[0] in a.ids && Next(s, a, pack) == s;
    }
  }

  // ------------------------------------------------------------------------ the code

  function At(spaces: map<string, Built>, space: string): Option<Built> {
    if space in spaces then Some(spaces[space]) else None
  }

  /** `spaces` with one space as given, and the others as they are. */
  function With(spaces: map<string, Built>, space: string, s: Option<Built>): map<string, Built> {
    if s.Some? then spaces[space := s.value] else spaces
  }

  /** The ids are those of the keys, each once. */
  ghost predicate Names(ids: seq<string>, keys: seq<string>) {
    && (forall i, j :: 0 <= i < j < |ids| ==> ids[i] != ids[j])
    && (forall id :: id in ids ==> exists key :: key in keys && ScopeIdFor(key) == Some(id))
    && (forall key :: key in keys ==> ScopeIdFor(key).Some? && ScopeIdFor(key).value in ids)
  }

  ghost predicate Owns(keys: seq<string>, key: string, id: string) {
    key in keys && ScopeIdFor(key) == Some(id)
  }

  ghost predicate OwnedBy(owner: map<string, string>, key: string) {
    ScopeIdFor(key).Some? && ScopeIdFor(key).value in owner && owner[ScopeIdFor(key).value] == key
  }

  /** The ids of the first `n` keys, in order, and the key that each belongs to. */
  ghost predicate Owners(keys: seq<string>, n: nat, owner: map<string, string>, ids: seq<string>) {
    && n <= |keys|
    && (forall i, j :: 0 <= i < j < |ids| ==> ids[i] != ids[j])
    && (forall id :: id in ids <==> id in owner)
    && (forall id :: id in owner ==> Owns(keys, owner[id], id))
    && (forall k :: 0 <= k < n ==> OwnedBy(owner, keys[k]))
  }

  lemma OneMoreOwner(keys: seq<string>, n: nat, owner: map<string, string>, ids: seq<string>, id: string)
    requires n < |keys| && Owners(keys, n, owner, ids) && ScopeIdFor(keys[n]) == Some(id)
    requires id in owner ==> owner[id] == keys[n]
    ensures Owners(keys, n + 1, owner[id := keys[n]], if id in owner then ids else ids + [id])
  {
    if id in owner {
      assert owner[id := keys[n]] == owner && OwnedBy(owner, keys[n]);
    } else {
      NewOwner(keys, n, owner, ids, id);
    }
  }

  lemma NewOwner(keys: seq<string>, n: nat, owner: map<string, string>, ids: seq<string>, id: string)
    requires n < |keys| && Owners(keys, n, owner, ids) && ScopeIdFor(keys[n]) == Some(id) && id !in owner
    ensures Owners(keys, n + 1, owner[id := keys[n]], ids + [id])
  {
    var more := owner[id := keys[n]];
    assert forall i :: 0 <= i < |ids| ==> ids[i] in owner;
    forall k | 0 <= k < n + 1
      ensures OwnedBy(more, keys[k])
    {
      assert k == n || OwnedBy(owner, keys[k]);
    }
    forall x | x in more
      ensures Owns(keys, more[x], x)
    {
      assert x == id || Owns(keys, owner[x], x);
    }
  }

  lemma OwnersSeparate(keys: seq<string>, owner: map<string, string>, ids: seq<string>)
    requires Owners(keys, |keys|, owner, ids)
    ensures Separates(keys) && Names(ids, keys)
  {
    forall key | key in keys
      ensures OwnedBy(owner, key)
    {
    }
    forall id | id in ids
      ensures exists key :: key in keys && ScopeIdFor(key) == Some(id)
    {
      assert Owns(keys, owner[id], id);
    }
  }

  class Registry {
    var spaces: map<string, Built>

    /** Derives and checks every scope id. */
    method Check(keys: seq<string>) returns (bad: Option<Provisioned>, ids: seq<string>)
      ensures bad.None? <==> Separates(keys)
      ensures bad.None? ==> Names(ids, keys)
      ensures bad.Some? ==> bad.value.Unusable? || bad.value.Collision?
      ensures bad.Some? && bad.value.Unusable? ==> bad.value.name in keys && ScopeIdFor(bad.value.name).None?
      ensures bad.Some? && bad.value.Collision? ==>
        && bad.value.first in keys && bad.value.second in keys && bad.value.first != bad.value.second
        && ScopeIdFor(bad.value.first) == ScopeIdFor(bad.value.second) == Some(bad.value.scope)
    {
      var owner: map<string, string> := map[];
      ids := [];
      for i := 0 to |keys|
        invariant Owners(keys, i, owner, ids)
      {
        var id := ScopeIdFor(keys[i]);
        if id.None? {
          return Some(Unusable(keys[i])), ids;
        }
        if id.value in owner && owner[id.value] != keys[i] {
          return Some(Collision(owner[id.value], keys[i], id.value)), ids;
        }
        OneMoreOwner(keys, i, owner, ids, id.value);
        if id.value !in owner {
          ids := ids + [id.value];
        }
        owner := owner[id.value := keys[i]];
      }
      OwnersSeparate(keys, owner, ids);
      bad := None;
    }

    /** Provisions the run's space, or attaches to it, checking every scope id before
        anything is written. `pack` is the number of the pack's statements; the launch may be
        killed between any two. */
    method ProvisionOrAttach(run: string, keys: seq<string>, pack: nat, mayDie: bool)
      returns (r: Provisioned, ghost attempt: Option<Attempt>)
      modifies this
      ensures r.Killed? ==> mayDie
      ensures attempt.Some? <==> SpaceIdFor(run).Some? && Separates(keys)
      ensures attempt.None? ==> spaces == old(spaces) && (r.Unusable? || r.Collision?)
      ensures r.Unusable? ==>
        if SpaceIdFor(run).None? then r.name == run else r.name in keys && ScopeIdFor(r.name).None?
      ensures r.Collision? ==>
        && r.first in keys && r.second in keys && r.first != r.second
        && ScopeIdFor(r.first) == ScopeIdFor(r.second) == Some(r.scope)
      ensures attempt.Some? ==>
        var space := SpaceIdFor(run).value;
        var s := At(old(spaces), space);
        && Names(attempt.value.ids, keys)
        && spaces == With(old(spaces), space, Next(s, attempt.value, pack))
        && r == Outcome(s, attempt.value, space)
    {
      attempt := None;
      var space := SpaceIdFor(run);
      if space.None? {
        return Unusable(run), None;
      }
      var bad, ids := Check(keys);
      if bad.Some? {
        return bad.value, None;
      }
      var done;
      if space.value in spaces {
        r, done := Attach(space.value, ids, mayDie);
      } else {
        r, done := Build(space.value, ids, pack, mayDie);
      }
      AllListed(ids, 2 + pack + |ids|);
      attempt := Some(Attempt(ids, if r.Killed? then Some(done) else None));
    }

    method Build(space: string, ids: seq<string>, pack: nat, mayDie: bool) returns (r: Provisioned, done: nat)
      requires space !in spaces
      modifies this
      ensures (mayDie && r == Killed) || (r == Ready(space) && done == 2 + pack + |ids|)
      ensures spaces == With(old(spaces), space, Begun(done, pack, ids))
    {
      r, done := Killed, 0;
      var dies: bool := *;
      if mayDie && dies {
        return;
      }
      spaces := spaces[space := Built(false, 0, {})];
      done := 1;
      dies := *;
      if mayDie && dies {
        return;
      }
      spaces := spaces[space := Built(true, 0, {})];
      r, done := Fill(space, ids, pack, mayDie);
    }

    /** The pack and the scopes of a space that has its principal. */
    method Fill(space: string, ids: seq<string>, pack: nat, mayDie: bool) returns (r: Provisioned, done: nat)
      requires space in spaces && spaces[space] == Built(true, 0, {})
      modifies this
      ensures (mayDie && r == Killed && done >= 2) || (r == Ready(space) && done == 2 + pack + |ids|)
      ensures spaces == With(old(spaces), space, Begun(done, pack, ids))
    {
      r := Killed;
      var applied, crashed := ApplyPack(space, pack, mayDie);
      done := 2 + applied;
      if crashed {
        return;
      }
      NothingListed({}, ids);
      var written;
      written, crashed := InsertScopes(space, ids, mayDie);
      done := done + written;
      assert {} + Listed(ids, written) == Listed(ids, written);
      if !crashed {
        r := Ready(space);
      }
    }

    /** The pack's statements, one by one; a kill leaves some undone. */
    method ApplyPack(space: string, pack: nat, mayDie: bool) returns (done: nat, crashed: bool)
      requires space in spaces && spaces[space] == Built(true, 0, {})
      modifies this
      ensures spaces == old(spaces)[space := Built(true, done, {})]
      ensures if crashed then mayDie && done < pack else done == pack
    {
      done, crashed := 0, false;
      while done < pack
        invariant done <= pack && spaces == old(spaces)[space := Built(true, done, {})]
      {
        var dies: bool := *;
        if mayDie && dies {
          return done, true;
        }
        spaces, done := spaces[space := Built(true, done + 1, {})], done + 1;
      }
    }

    method Attach(space: string, ids: seq<string>, mayDie: bool) returns (r: Provisioned, done: nat)
      requires space in spaces
      modifies this
      ensures (mayDie && r == Killed) ||
        r == if !old(spaces)[space].principal && ids != [] then NoPrincipal(space) else Ready(space)
      ensures r == Ready(space) ==> done == |ids|
      ensures spaces == old(spaces)[space := Attached(old(spaces)[space], done, ids)]
    {
      r, done := Killed, 0;
      NothingListed(spaces[space].scopes, ids);
      assert spaces == old(spaces)[space := old(spaces)[space]];
      var dies: bool := *;
      if mayDie && dies {
        return;
      }
      if ids != [] && !spaces[space].principal {
        return NoPrincipal(space), 0;
      }
      if ids == [] {
        return Ready(space), 0;
      }
      var crashed;
      done, crashed := InsertScopes(space, ids, mayDie);
      if !crashed {
        r := Ready(space);
      }
    }

    /** The scope rows, each naming the principal. */
    method InsertScopes(space: string, ids: seq<string>, mayDie: bool) returns (done: nat, crashed: bool)
      requires space in spaces && spaces[space].principal
      modifies this
      ensures done <= |ids| && if crashed then mayDie else done == |ids|
      ensures spaces == old(spaces)[space :=
        old(spaces)[space].(scopes := old(spaces)[space].scopes + Listed(ids, done))]
    {
      done, crashed := 0, true;
      ghost var b := spaces[space];
      NothingListed(b.scopes, ids);
      assert spaces == old(spaces)[space := b];
      while done < |ids|
        invariant done <= |ids|
        invariant spaces == old(spaces)[space := b.(scopes := b.scopes + Listed(ids, done))]
      {
        var dies: bool := *;
        if mayDie && dies {
          return;
        }
        OneMoreListed(b.scopes, ids, done);
        spaces := spaces[space := spaces[space].(scopes := spaces[space].scopes + {ids[done]})];
        done := done + 1;
      }
      crashed := false;
    }
  }

  lemma OneMoreListed(scopes: set<string>, ids: seq<string>, k: nat)
    requires k < |ids|
    ensures Listed(ids, k + 1) == Listed(ids, k) + {ids[k]}
    ensures scopes + Listed(ids, k + 1) == scopes + Listed(ids, k) + {ids[k]}
  {
  }

  lemma NothingListed(scopes: set<string>, ids: seq<string>)
    ensures Listed(ids, 0) == {} && scopes + Listed(ids, 0) == scopes
  {
  }

  lemma AllListed(ids: seq<string>, done: nat)
    requires done >= |ids|
    ensures Listed(ids, done) == Listed(ids, |ids|)
  {
  }

  // ------------------------------------------------------------ over launches of a run

  /** What a sequence of launches leaves of the space. */
  function After(s: Option<Built>, attempts: seq<Attempt>, pack: nat): Option<Built> {
    if attempts == [] then s else Next(After(s, attempts[..|attempts| - 1], pack), attempts[|attempts| - 1], pack)
  }

  /** Killed after the space was inserted and before its pack was whole. */
  predicate HalfKilled(a: Attempt, pack: nat) {
    a.kill.Some? && 1 <= a.kill.value < 2 + pack
  }

  predicate Whole(s: Option<Built>, pack: nat) {
    s.Some? ==> s.value.principal && s.value.pack == pack
  }

  ghost predicate AllWhole(attempts: seq<Attempt>, n: nat, pack: nat)
    requires n <= |attempts|
  {
    forall k :: 0 <= k <= n ==> Whole(After(None, attempts[..k], pack), pack)
  }

  /** Launch `k` found no space, and was killed while it built one. */
  predicate LeftHalf(attempts: seq<Attempt>, k: nat, pack: nat)
    requires k < |attempts|
  {
    After(None, attempts[..k], pack).None? && HalfKilled(attempts[k], pack)
  }

  ghost predicate NoneLeftHalf(attempts: seq<Attempt>, n: nat, pack: nat)
    requires n <= |attempts|
  {
    forall k :: 0 <= k < n ==> !LeftHalf(attempts, k, pack)
  }

  lemma NextWhole(s: Option<Built>, a: Attempt, pack: nat)
    requires Whole(s, pack)
    ensures Whole(Next(s, a, pack), pack) <==> s.Some? || !HalfKilled(a, pack)
  {
  }

  lemma OneMoreAttempt(attempts: seq<Attempt>, n: nat, pack: nat)
    requires n < |attempts|
    ensures AllWhole(attempts, n + 1, pack) <==> AllWhole(attempts, n, pack) && !LeftHalf(attempts, n, pack)
  {
    var s := After(None, attempts[..n], pack);
    assert attempts[..n + 1][..n] == attempts[..n];
    assert After(None, attempts[..n + 1], pack) == Next(s, attempts[n], pack);
    if Whole(s, pack) {
      NextWhole(s, attempts[n], pack);
    }
  }

  /** A space that a later launch attaches to has its principal and its whole pack, whatever
      was launched and killed before, exactly when no launch that found no space was killed
      while it built one. */
  lemma WholeExactlyWhen(attempts: seq<Attempt>, pack: nat)
    ensures AllWhole(attempts, |attempts|, pack) <==> NoneLeftHalf(attempts, |attempts|, pack)
  {
    assert attempts[..0] == [];
    for n := 0 to |attempts|
      invariant AllWhole(attempts, n, pack) <==> NoneLeftHalf(attempts, n, pack)
    {
      OneMoreAttempt(attempts, n, pack);
    }
  }

  /** Nothing repairs a space left half built: later launches add scopes at most. */
  lemma {:induction false} HalfBuiltForGood(b: Built, attempts: seq<Attempt>, pack: nat)
    ensures var s := After(Some(b), attempts, pack);
      s.Some? && s.value.principal == b.principal && s.value.pack == b.pack
  {
    if attempts != [] {
      HalfBuiltForGood(b, attempts[..|attempts| - 1], pack);
    }
  }

  /** Killed once after the principal, and launched again: the launch is told its space is
      ready, and the space has none of its pack. */
  lemma ReadyWithoutPack(ids: seq<string>, space: string, pack: nat)
    requires pack > 0
    ensures var s := After(None, [Attempt(ids, Some(2))], pack);
      && Outcome(s, Attempt(ids, None), space) == Ready(space)
      && Next(s, Attempt(ids, None), pack) == Some(Built(true, 0, Listed(ids, |ids|)))
  {
    var a := Attempt(ids, Some(2));
    assert [a][..0] == [] && After(None, [a], pack) == Next(None, a, pack) == Some(Built(true, 0, {}));
    AllListed(ids, 2 + pack + |ids|);
    assert {} + Listed(ids, |ids|) == Listed(ids, |ids|);
  }
}
