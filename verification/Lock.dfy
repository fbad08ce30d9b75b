/** The lock that keeps a second supervisor off the same run directory. */
module Lock {
  import opened Options

  /** The lock file's pid, the live processes, those whose check passed and that have not
      written yet, each with the pids granted the lock since, and those granted the lock
      that still run. */
  datatype State = State(file: Option<int>, alive: set<int>, checked: map<int, set<int>>, granted: set<int>)

  /** An acquire is two steps of its process: it reads the file and, unless that names a
      live other, writes its own pid. */
  datatype Action = Begin(pid: int) | Check(pid: int) | Write(pid: int) | Exit(pid: int) | Kill(pid: int)

  const NOBODY := State(None, {}, map[], {})

  /** A live owner other than the caller refuses it; a dead owner is taken over. */
  predicate Refused(s: State, pid: int) {
    s.file.Some? && s.file.value > 0 && s.file.value != pid && s.file.value in s.alive
  }

  predicate Enabled(s: State, a: Action) {
    match a
    case Begin(pid) => pid > 0 && pid !in s.alive
    case Check(pid) => pid in s.alive && pid !in s.checked && pid !in s.granted
    case Write(pid) => pid in s.checked
    case Exit(pid) => pid in s.alive
    case Kill(pid) => pid in s.alive
  }

  function Gone(s: State, pid: int): State {
    s.(alive := s.alive - {pid}, checked := s.checked - {pid}, granted := s.granted - {pid})
  }

  /** An orderly exit runs the release hook, which only a granted process has
      registered and which removes the file only if it still names that process. A
      kill runs nothing. Pids of dead processes may be reused. */
  function Next(s: State, a: Action): State {
    match a
    case Begin(pid) => s.(alive := s.alive + {pid})
    case Check(pid) => if Refused(s, pid) then s else s.(checked := s.checked[pid := {}])
    case Write(pid) =>
      State(Some(pid), s.alive, (map q | q in s.checked && q != pid :: s.checked[q] + {pid}), s.granted + {pid})
    case Exit(pid) => Gone(s.(file := if pid in s.granted && s.file == Some(pid) then None else s.file), pid)
    case Kill(pid) => Gone(s, pid)
  }

  /** What a run of actions leads to, and whether it can happen. */
  function After(s: State, actions: seq<Action>): State
    decreases |actions|
  {
    if actions == [] then s else After(Next(s, actions[0]), actions[1..])
  }

  predicate Possible(s: State, actions: seq<Action>)
    decreases |actions|
  {
    actions == [] || (Enabled(s, actions[0]) && Possible(Next(s, actions[0]), actions[1..]))
  }

  ghost predicate OneHolder(s: State) {
    forall p, q :: p in s.granted && q in s.granted ==> p == q
  }

  /** Throughout a run at most one live process holds the lock. */
  ghost predicate KeepsOne(s: State, actions: seq<Action>)
    decreases |actions|
  {
    OneHolder(s) && (actions == [] || KeepsOne(Next(s, actions[0]), actions[1..]))
  }

  /** A write by a process that another overtook: it was granted the lock since the
      writer's check, and still runs. */
  predicate Overtaken(s: State, a: Action) {
    a.Write? && a.pid in s.checked && exists q :: q in s.checked[a.pid] && q in s.granted
  }

  predicate NeverOvertaken(s: State, actions: seq<Action>)
    decreases |actions|
  {
    actions == [] || (!Overtaken(s, actions[0]) && NeverOvertaken(Next(s, actions[0]), actions[1..]))
  }

  /** Whoever holds the lock is alive, is named by the file, and was granted the lock
      after the check of every process that has yet to write. */
  ghost predicate Exclusive(s: State) {
    && (forall p :: p in s.alive ==> p > 0)
    && (forall p :: p in s.granted ==> p in s.alive && s.file == Some(p) && p !in s.checked)
    && (forall p, q :: p in s.checked && q in s.granted ==> q in s.checked[p])
    && (forall p :: p in s.checked ==> p in s.alive)
  }

  /** A lock whose owner is not alive, or that names no process, keeps nobody out: a process
      that is not yet in, checks and writes, and holds the lock. */
  lemma DeadOwnerIsTakenOver(s: State, pid: int)
    requires pid in s.alive && pid !in s.checked && pid !in s.granted
    requires s.file.None? || s.file.value <= 0 || s.file.value !in s.alive
    ensures Possible(s, [Check(pid), Write(pid)])
    ensures var t := After(s, [Check(pid), Write(pid)]); t.file == Some(pid) && pid in t.granted
  {
    var t := Next(s, Check(pid));
    assert [Check(pid), Write(pid)][1..] == [Write(pid)] && [Write(pid)][1..] == [];
    assert After(t, [Write(pid)]) == After(Next(t, Write(pid)), []) == Next(t, Write(pid));
  }

  /** A live owner keeps every other process out. */
  lemma LiveOwnerRefuses(s: State, owner: int, pid: int)
    requires s.file == Some(owner) && owner > 0 && owner in s.alive && pid != owner && pid !in s.checked
    ensures Next(s, Check(pid)) == s && !Enabled(Next(s, Check(pid)), Write(pid))
  {
  }

  lemma HoldersOvertake(s: State, p: int)
    requires Exclusive(s) && p in s.checked
    ensures forall q :: q in s.granted ==> Overtaken(s, Write(p))
  {
    forall q | q in s.granted
      ensures Overtaken(s, Write(p))
    {
      assert q in s.checked[p];
    }
  }

  lemma StaysExclusive(s: State, a: Action)
    requires Exclusive(s) && Enabled(s, a) && !Overtaken(s, a)
    ensures Exclusive(Next(s, a))
  {
    if a.Write? {
      HoldersOvertake(s, a.pid);
    }
  }

  /** At most one live process holds the lock throughout a run exactly when no process
      writes while another, granted the lock since its check, is still running. */
  lemma {:induction false} OneHolderExactlyWhen(s: State, actions: seq<Action>)
    requires Exclusive(s) && Possible(s, actions)
    ensures KeepsOne(s, actions) <==> NeverOvertaken(s, actions)
    decreases |actions|
  {
    if actions != [] {
      var a, t := actions[0], Next(s, actions[0]);
      if Overtaken(s, a) {
        var q :| q in s.checked[a.pid] && q in s.granted;
        assert q in t.granted && a.pid in t.granted && q != a.pid;
        assert !OneHolder(t);
        assert !KeepsOne(t, actions[1..]);
      } else {
        StaysExclusive(s, a);
        OneHolderExactlyWhen(t, actions[1..]);
      }
    }
  }

  /** The file then names the holder, whatever has been started, refused, killed or
      taken over. */
  lemma {:induction false} HolderIsNamed(s: State, actions: seq<Action>, p: int)
    requires Exclusive(s) && Possible(s, actions) && NeverOvertaken(s, actions)
    requires p in After(s, actions).granted
    ensures After(s, actions).file == Some(p) && p in After(s, actions).alive
    decreases |actions|
  {
    if actions != [] {
      StaysExclusive(s, actions[0]);
      HolderIsNamed(Next(s, actions[0]), actions[1..], p);
    }
  }

  /** Every write directly follows its own process's check. */
  predicate Uninterrupted(actions: seq<Action>) {
    forall k :: 0 <= k < |actions| && actions[k].Write? ==> k > 0 && actions[k - 1] == Check(actions[k].pid)
  }

  lemma {:induction false} UninterruptedIsSafe(s: State, last: Option<Action>, actions: seq<Action>)
    requires Possible(s, actions)
    requires last.Some? && last.value.Check? && last.value.pid in s.checked ==> s.checked[last.value.pid] == {}
    requires forall k :: 0 < k < |actions| && actions[k].Write? ==> actions[k - 1] == Check(actions[k].pid)
    requires actions != [] && actions[0].Write? ==> last == Some(Check(actions[0].pid))
    ensures NeverOvertaken(s, actions)
    decreases |actions|
  {
    if actions != [] {
      var rest := actions[1..];
      assert forall k :: 0 <= k < |rest| ==> rest[k] == actions[k + 1];
      if rest != [] && rest[0].Write? {
        assert actions[0] == Check(rest[0].pid);
      }
      UninterruptedIsSafe(Next(s, actions[0]), Some(actions[0]), rest);
    }
  }

  /** With uninterrupted acquires, over every run of starts, acquires, exits and kills,
      at most one live process holds the lock, and the file names it. */
  lemma OneSupervisor(actions: seq<Action>, p: int)
    requires Possible(NOBODY, actions) && Uninterrupted(actions)
    ensures KeepsOne(NOBODY, actions)
    ensures p in After(NOBODY, actions).granted ==> After(NOBODY, actions).file == Some(p)
  {
    UninterruptedIsSafe(NOBODY, None, actions);
    OneHolderExactlyWhen(NOBODY, actions);
    if p in After(NOBODY, actions).granted {
      HolderIsNamed(NOBODY, actions, p);
    }
  }

  /** While no process is overtaken, an orderly exit leaves a lock that another holds. */
  lemma ReleaseSparesOthers(actions: seq<Action>, p: int, q: int)
    requires Possible(NOBODY, actions) && NeverOvertaken(NOBODY, actions)
    requires q in After(NOBODY, actions).granted && Enabled(After(NOBODY, actions), Exit(p)) && p != q
    ensures Next(After(NOBODY, actions), Exit(p)).file == Some(q)
  {
    HolderIsNamed(NOBODY, actions, q);
  }

  /** And its own it takes with it: an exit of the holder leaves no lock, a kill leaves it. */
  lemma HolderReleases(actions: seq<Action>, p: int)
    requires Possible(NOBODY, actions) && NeverOvertaken(NOBODY, actions) && p in After(NOBODY, actions).granted
    ensures var s := After(NOBODY, actions);
      && Enabled(s, Exit(p)) && Next(s, Exit(p)).file.None?
      && Enabled(s, Kill(p)) && Next(s, Kill(p)).file == Some(p)
      && p !in Next(s, Exit(p)).alive && p !in Next(s, Kill(p)).alive
  {
    HolderIsNamed(NOBODY, actions, p);
  }

  lemma Prepend(s: State, a: Action, rest: seq<Action>)
    ensures After(s, [a] + rest) == After(Next(s, a), rest)
    ensures Possible(s, [a] + rest) <==> Enabled(s, a) && Possible(Next(s, a), rest)
    ensures NeverOvertaken(s, [a] + rest) <==> !Overtaken(s, a) && NeverOvertaken(Next(s, a), rest)
  {
    assert ([a] + rest)[1..] == rest;
  }

  /** Once both have checked, the second write overtakes the first. */
  lemma BothWrite(p: int, q: int, s: State)
    requires p != q && s.checked.Keys == {p, q} && s.granted == {}
    ensures var actions := [Write(p)] + ([Write(q)] + []);
      Possible(s, actions) && After(s, actions).granted == {p, q} && !NeverOvertaken(s, actions)
  {
    var t := Next(s, Write(p));
    Prepend(s, Write(p), [Write(q)] + []);
    Prepend(t, Write(q), []);
    assert p in t.checked[q] && p in t.granted;
  }

  /** Two processes that both check before either writes both hold the lock. */
  lemma Interleaved(p: int, q: int) returns (actions: seq<Action>)
    requires 0 < p && 0 < q && p != q
    ensures Possible(NOBODY, actions) && After(NOBODY, actions).granted == {p, q}
    ensures !NeverOvertaken(NOBODY, actions) && !KeepsOne(NOBODY, actions)
  {
    var a2 := [Write(p)] + ([Write(q)] + []);
    var a3, a4 := [Check(q)] + a2, [Check(p)] + ([Check(q)] + a2);
    var a5 := [Begin(q)] + a4;
    actions := [Begin(p)] + a5;
    var s1 := Next(NOBODY, Begin(p));
    var s2 := Next(s1, Begin(q));
    var s3 := Next(s2, Check(p));
    var s4 := Next(s3, Check(q));
    BothWrite(p, q, s4);
    Prepend(s3, Check(q), a2);
    Prepend(s2, Check(p), a3);
    Prepend(s1, Begin(q), a4);
    Prepend(NOBODY, Begin(p), a5);
    OneHolderExactlyWhen(NOBODY, actions);
  }
}
