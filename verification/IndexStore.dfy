// The in-memory index store: what it holds while access is revoked.
module IndexStore {
  import opened Wrappers
  import opened AccessRegisters
  import RepositoryIndex

  /** A repository of an installation, its owner and name in lower case. */
  datatype Scope = Scope(installationId: int, repository: string)

  datatype Snapshot = Snapshot(scope: Scope, commitSha: string, indexedAt: int, files: seq<RepositoryIndex.File>)

  datatype PutResult = Stored | RevokedScope | DeadlineExceeded

  /** Snapshots by commit, the latest commit of each scope, and the access registers as they are kept. */
  datatype Index = Index(
    snapshots: map<Scope, map<string, Snapshot>>,
    latest: map<Scope, string>,
    revokedRepositories: set<Scope>,
    repositoryAccessChangedAt: map<Scope, nat>,
    installationAccess: map<int, Register>)

  const EMPTY := Index(map[], map[], {}, map[], map[])

  function InstallationOf(x: Index, installationId: int): Register {
    if installationId in x.installationAccess then x.installationAccess[installationId] else Unset
  }

  function RepositoryOf(x: Index, scope: Scope): Register {
    if scope in x.repositoryAccessChangedAt then Set(scope in x.revokedRepositories, x.repositoryAccessChangedAt[scope]) else Unset
  }

  /** The two registers that decide about a scope. */
  function AccessOf(x: Index, scope: Scope): Access {
    Access(InstallationOf(x, scope.installationId), RepositoryOf(x, scope))
  }

  predicate Revoked(x: Index, scope: Scope) {
    IsRevoked(AccessOf(x, scope).installation) || IsRevoked(AccessOf(x, scope).repository)
  }

  // ----- operations

  predicate Late(now: int, deadlineAt: Option<int>) {
    deadlineAt.Some? && deadlineAt.value < now
  }

  function Put(x: Index, s: Snapshot, now: int, deadlineAt: Option<int>): (Index, PutResult) {
    if Late(now, deadlineAt) then (x, DeadlineExceeded)
    else if IsRevoked(InstallationOf(x, s.scope.installationId)) || s.scope in x.revokedRepositories then (x, RevokedScope)
    else
      var commits := if s.scope in x.snapshots then x.snapshots[s.scope] else map[];
      (x.(snapshots := x.snapshots[s.scope := commits[s.commitSha := s]], latest := x.latest[s.scope := s.commitSha]), Stored)
  }

  function SetRepository(x: Index, scope: Scope, revoked: bool, at: nat): Index {
    x.(repositoryAccessChangedAt := x.repositoryAccessChangedAt[scope := at],
       revokedRepositories := if revoked then x.revokedRepositories + {scope} else x.revokedRepositories - {scope})
  }

  function RevokeRepository(x: Index, scope: Scope, at: nat, force: bool): (Index, Option<int>) {
    var (r, answer) := DeleteRepository(RepositoryOf(x, scope), at, force);
    if answer.None? then (x, None)
    else (SetRepository(x, scope, true, r.changedAt).(snapshots := x.snapshots - {scope}, latest := x.latest - {scope}), answer)
  }

  function Others<T>(entries: map<Scope, T>, installationId: int): map<Scope, T> {
    map scope | scope in entries && scope.installationId != installationId :: entries[scope]
  }

  function RevokeInstallation(x: Index, installationId: int, at: nat, force: bool): (Index, Option<int>) {
    var (r, answer) := DeleteInstallation(InstallationOf(x, installationId), at, force);
    if answer.None? then (x, None)
    else
      (x.(installationAccess := x.installationAccess[installationId := r],
          snapshots := Others(x.snapshots, installationId), latest := Others(x.latest, installationId)), answer)
  }

  function RestoreScope(x: Index, scope: Scope, at: nat, force: bool): (Index, Option<int>) {
    var (r, answer) := RestoreRepository(InstallationOf(x, scope.installationId), RepositoryOf(x, scope), at, force);
    (if r == RepositoryOf(x, scope) then x else SetRepository(x, scope, false, r.changedAt), answer)
  }

  function RestoreInstallationAccess(x: Index, installationId: int, at: nat, force: bool): (Index, Option<int>) {
    var (r, answer) := RestoreInstallation(InstallationOf(x, installationId), at, force);
    (if r == InstallationOf(x, installationId) then x else x.(installationAccess := x.installationAccess[installationId := r]), answer)
  }

  // ----- the store as it runs

  class InMemoryRepositoryIndexStore {
    var snapshots: map<Scope, map<string, Snapshot>>
    var latest: map<Scope, string>
    var revokedRepositories: set<Scope>
    var repositoryAccessChangedAt: map<Scope, nat>
    var installationAccess: map<int, Register>

    ghost function State(): Index
      reads this
    {
      Index(snapshots, latest, revokedRepositories, repositoryAccessChangedAt, installationAccess)
    }

    constructor ()
      ensures State() == EMPTY
    {
      snapshots, latest, revokedRepositories, repositoryAccessChangedAt, installationAccess := map[], map[], {}, map[], map[];
    }

    method PutSnapshot(s: Snapshot, now: int, deadlineAt: Option<int>) returns (result: PutResult)
      modifies this
      ensures (State(), result) == Put(old(State()), s, now, deadlineAt)
      ensures Revoked(old(State()), s.scope) && Consistent(old(State())) ==> result != Stored && State() == old(State())
    {
      if deadlineAt.Some? && now > deadlineAt.value { return DeadlineExceeded; }
      var installation := if s.scope.installationId in installationAccess then installationAccess[s.scope.installationId] else Unset;
      if (installation.Set? && installation.revoked) || s.scope in revokedRepositories { return RevokedScope; }
      var commits := if s.scope in snapshots then snapshots[s.scope] else map[];
      snapshots := snapshots[s.scope := commits[s.commitSha := s]];
      latest := latest[s.scope := s.commitSha];
      return Stored;
    }

    method RevokeRepositoryAccess(scope: Scope, at: nat, force: bool) returns (answer: Option<int>)
      requires Consistent(State())
      modifies this
      ensures (State(), answer) == RevokeRepository(old(State()), scope, at, force)
      ensures answer.None? ==> State() == old(State())
      ensures answer.Some? ==> NothingHeld(State(), scope) && forall other | other != scope :: SameHeld(old(State()), State(), other)
    {
      var currentAt: int := if scope in repositoryAccessChangedAt then repositoryAccessChangedAt[scope] else -1;
      var active := scope !in revokedRepositories;
      if (currentAt > at && !(force && active)) || (!force && currentAt == at && active) { return None; }
      var effectiveAt := Max(currentAt, at);
      repositoryAccessChangedAt := repositoryAccessChangedAt[scope := effectiveAt];
      revokedRepositories := revokedRepositories + {scope};
      snapshots := snapshots - {scope};
      latest := latest - {scope};
      return Some(effectiveAt);
    }

    method RevokeInstallationAccess(installationId: int, at: nat, force: bool) returns (answer: Option<int>)
      modifies this
      ensures (State(), answer) == RevokeInstallation(old(State()), installationId, at, force)
      ensures answer.None? ==> State() == old(State())
      ensures answer.Some? ==>
                forall scope: Scope :: if scope.installationId == installationId then NothingHeld(State(), scope) else SameHeld(old(State()), State(), scope)
    {
      var current := if installationId in installationAccess then installationAccess[installationId] else Unset;
      if current.Set? && ((current.changedAt > at && !(force && !current.revoked)) || (!force && current.changedAt == at && !current.revoked)) {
        return None;
      }
      var effectiveAt := Max(if current.Set? then current.changedAt else -1, at);
      installationAccess := installationAccess[installationId := Set(true, effectiveAt)];
      snapshots := DropInstallation(snapshots, installationId);
      latest := DropInstallation(latest, installationId);
      return Some(effectiveAt);
    }

    method RestoreRepositoryAccess(scope: Scope, at: nat, force: bool) returns (answer: Option<int>)
      requires Consistent(State())
      modifies this
      ensures (State(), answer) == RestoreScope(old(State()), scope, at, force)
    {
      var installation := if scope.installationId in installationAccess then installationAccess[scope.installationId] else Unset;
      if installation.Set? && installation.revoked { return None; }
      var currentAt: int := if scope in repositoryAccessChangedAt then repositoryAccessChangedAt[scope] else -1;
      var revoked := scope in revokedRepositories;
      if currentAt > at && !(force && revoked) { return if revoked then None else Some(currentAt); }
      var effectiveAt := Max(currentAt, at);
      repositoryAccessChangedAt := repositoryAccessChangedAt[scope := effectiveAt];
      revokedRepositories := revokedRepositories - {scope};
      assert currentAt == effectiveAt ==> repositoryAccessChangedAt == old(repositoryAccessChangedAt);
      assert !revoked ==> revokedRepositories == old(revokedRepositories);
      return Some(effectiveAt);
    }

    method RestoreInstallation(installationId: int, at: nat, force: bool) returns (answer: Option<int>)
      modifies this
      ensures (State(), answer) == RestoreInstallationAccess(old(State()), installationId, at, force)
    {
      var current := if installationId in installationAccess then installationAccess[installationId] else Unset;
      if current.Set? && current.changedAt > at && !(force && current.revoked) {
        return if current.revoked then None else Some(current.changedAt);
      }
      var effectiveAt := Max(if current.Set? then current.changedAt else -1, at);
      installationAccess := installationAccess[installationId := Set(false, effectiveAt)];
      assert current == Set(false, effectiveAt) ==> installationAccess == old(installationAccess);
      return Some(effectiveAt);
    }
  }

  /** Deletes the entries of an installation, one by one. */
  method DropInstallation<T>(entries: map<Scope, T>, installationId: int) returns (kept: map<Scope, T>)
    ensures kept == Others(entries, installationId)
  {
    kept := entries;
    var left := entries.Keys;
    while left != {}
      invariant left <= entries.Keys
      invariant kept.Keys == set scope | scope in entries && (scope in left || scope.installationId != installationId)
      invariant forall scope | scope in kept :: kept[scope] == entries[scope]
      decreases |left|
    {
      var scope :| scope in left;
      left := left - {scope};
      if scope.installationId == installationId {
        kept := kept - {scope};
      }
    }
  }

  // ----- what each operation holds and drops, scope by scope

  /** The same snapshots and the same latest commit of a scope. */
  ghost predicate SameHeld(x: Index, y: Index, scope: Scope) {
    && (scope in x.snapshots <==> scope in y.snapshots) && (scope in x.snapshots ==> x.snapshots[scope] == y.snapshots[scope])
    && (scope in x.latest <==> scope in y.latest) && (scope in x.latest ==> x.latest[scope] == y.latest[scope])
  }

  predicate NothingHeld(x: Index, scope: Scope) {
    scope !in x.snapshots && scope !in x.latest
  }

  /** Revoking an installation drops what is held of its scopes, and of no other. */
  lemma InstallationDropped(x: Index, installationId: int, at: nat, force: bool, scope: Scope)
    ensures var (y, answer) := RevokeInstallation(x, installationId, at, force);
            && (answer.None? ==> y == x)
            && (answer.Some? && scope.installationId == installationId ==> NothingHeld(y, scope))
            && (answer.Some? && scope.installationId != installationId ==> SameHeld(x, y, scope))
  {
    hide DeleteInstallation;
  }

  /** Revoking a repository drops what is held of its scope, and of no other. */
  lemma RepositoryDropped(x: Index, revoked: Scope, at: nat, force: bool, scope: Scope)
    ensures var (y, answer) := RevokeRepository(x, revoked, at, force);
            && (answer.None? ==> y == x)
            && (answer.Some? && scope == revoked ==> NothingHeld(y, scope))
            && (answer.Some? && scope != revoked ==> SameHeld(x, y, scope))
  {
    hide DeleteRepository;
  }

  /** Restoring access brings nothing back and drops nothing. */
  lemma RestoringHolds(x: Index, scope: Scope, at: nat, force: bool, other: Scope)
    ensures SameHeld(x, RestoreScope(x, scope, at, force).0, other)
    ensures SameHeld(x, RestoreInstallationAccess(x, scope.installationId, at, force).0, other)
  {
    hide RestoreRepository, RestoreInstallation;
  }

  /** A snapshot that is stored is held under its commit, which is the latest; earlier commits and other scopes stay. */
  lemma PutHolds(x: Index, s: Snapshot, now: int, deadlineAt: Option<int>, scope: Scope, commitSha: string)
    ensures var (y, result) := Put(x, s, now, deadlineAt);
            && (result != Stored ==> y == x)
            && (result == Stored ==>
                  && s.scope in y.snapshots && s.commitSha in y.snapshots[s.scope] && y.snapshots[s.scope][s.commitSha] == s
                  && s.scope in y.latest && y.latest[s.scope] == s.commitSha
                  && (scope != s.scope ==> SameHeld(x, y, scope))
                  && (commitSha != s.commitSha && s.scope in x.snapshots ==>
                        && (commitSha in y.snapshots[s.scope] <==> commitSha in x.snapshots[s.scope])
                        && (commitSha in x.snapshots[s.scope] ==> y.snapshots[s.scope][commitSha] == x.snapshots[s.scope][commitSha])))
            && (result == DeadlineExceeded <==> deadlineAt.Some? && deadlineAt.value < now)
            && (Consistent(x) && result != DeadlineExceeded ==> (result == RevokedScope <==> Revoked(x, s.scope)))
  {
  }

  // ----- what every run keeps

  /** A revoked repository has a time. */
  ghost predicate Consistent(x: Index) {
    forall scope | scope in x.revokedRepositories :: scope in x.repositoryAccessChangedAt
  }

  /** Nothing is held for a revoked scope or a scope of a revoked installation; the latest commit of any other scope is held. */
  ghost predicate Withheld(x: Index, scope: Scope) {
    && (Revoked(x, scope) ==> scope !in x.snapshots && scope !in x.latest)
    && (scope in x.latest ==> scope in x.snapshots && x.latest[scope] in x.snapshots[scope])
  }

  ghost predicate IndexInv(x: Index) {
    Consistent(x) && forall scope {:trigger Withheld(x, scope)} :: Withheld(x, scope)
  }

  datatype Action =
    | PutA(s: Snapshot, now: int, deadlineAt: Option<int>)
    | RevokeRepositoryA(scope: Scope, at: nat, force: bool)
    | RevokeInstallationA(installationId: int, at: nat, force: bool)
    | RestoreRepositoryA(scope: Scope, at: nat, force: bool)
    | RestoreInstallationA(installationId: int, at: nat, force: bool)

  function Next(x: Index, a: Action): Index {
    match a
    case PutA(s, now, deadlineAt) => Put(x, s, now, deadlineAt).0
    case RevokeRepositoryA(scope, at, force) => RevokeRepository(x, scope, at, force).0
    case RevokeInstallationA(installationId, at, force) => RevokeInstallation(x, installationId, at, force).0
    case RestoreRepositoryA(scope, at, force) => RestoreScope(x, scope, at, force).0
    case RestoreInstallationA(installationId, at, force) => RestoreInstallationAccess(x, installationId, at, force).0
  }

  /** What an action asks of the registers of a scope, if anything. */
  function OpFor(a: Action, scope: Scope): Option<Op> {
    match a
    case PutA(_, _, _) => None
    case RevokeRepositoryA(s, at, force) => if s == scope then Some(Op(OnRepository, true, at, force)) else None
    case RestoreRepositoryA(s, at, force) => if s == scope then Some(Op(OnRepository, false, at, force)) else None
    case RevokeInstallationA(id, at, force) => if id == scope.installationId then Some(Op(OnInstallation, true, at, force)) else None
    case RestoreInstallationA(id, at, force) => if id == scope.installationId then Some(Op(OnInstallation, false, at, force)) else None
  }

  /** The store's registers move exactly as the pair of registers does, and only those of the scopes concerned. */
  lemma RegistersMove(x: Index, a: Action, scope: Scope)
    requires Consistent(x)
    ensures AccessOf(Next(x, a), scope) ==
            if OpFor(a, scope).Some? then Memory(AccessOf(x, scope), OpFor(a, scope).value).0 else AccessOf(x, scope)
    ensures Consistent(Next(x, a))
  {
    StaysConsistent(x, a);
    hide Others, Consistent;
    assert scope in x.revokedRepositories ==> scope in x.repositoryAccessChangedAt;
    match a
    case PutA(_, _, _) =>
    case RevokeRepositoryA(s, at, force) => RepositoryMoves(x, s, at, force, scope);
    case RestoreRepositoryA(s, at, force) => RepositoryMoves(x, s, at, force, scope);
    case RevokeInstallationA(_, _, _) =>
    case RestoreInstallationA(_, _, _) =>
  }

  lemma RepositoryMoves(x: Index, s: Scope, at: nat, force: bool, scope: Scope)
    requires scope in x.revokedRepositories ==> scope in x.repositoryAccessChangedAt
    ensures var y := RevokeRepository(x, s, at, force).0;
            AccessOf(y, scope) == AccessOf(x, scope).(repository := if s == scope then DeleteRepository(RepositoryOf(x, s), at, force).0 else RepositoryOf(x, scope))
    ensures var y := RestoreScope(x, s, at, force).0;
            AccessOf(y, scope) == AccessOf(x, scope).(repository := if s == scope then RestoreRepository(InstallationOf(x, s.installationId), RepositoryOf(x, s), at, force).0
                                                                     else RepositoryOf(x, scope))
  {
  }

  lemma StaysConsistent(x: Index, a: Action)
    requires Consistent(x)
    ensures Consistent(Next(x, a))
  {
    hide Others;
  }

  lemma NextKeepsIndex(x: Index, a: Action)
    requires IndexInv(x)
    ensures IndexInv(Next(x, a))
  {
    forall scope ensures Withheld(Next(x, a), scope) {
      assert Withheld(x, scope);
      RegistersMove(x, a, scope);
    }
  }

  function IndexAfter(run: seq<Action>): Index {
    if run == [] then EMPTY else Next(IndexAfter(run[..|run| - 1]), run[|run| - 1])
  }

  lemma {:induction false} RunKeepsIndex(run: seq<Action>)
    ensures IndexInv(IndexAfter(run))
  {
    hide Next;
    if run == [] {
      assert IndexInv(EMPTY);
    } else {
      RunKeepsIndex(run[..|run| - 1]);
      NextKeepsIndex(IndexAfter(run[..|run| - 1]), run[|run| - 1]);
    }
  }

  /**
   * After any run, a revoked repository and every repository of a revoked installation have neither a snapshot nor a
   * latest commit, and nothing is stored for them: put answers so, or that it is late.
   */
  lemma RevokedHoldsNothing(run: seq<Action>, s: Snapshot, now: int, deadlineAt: Option<int>)
    requires Revoked(IndexAfter(run), s.scope)
    ensures var x := IndexAfter(run);
            && s.scope !in x.snapshots && s.scope !in x.latest
            && Put(x, s, now, deadlineAt) == (x, if Late(now, deadlineAt) then DeadlineExceeded else RevokedScope)
  {
    RunKeepsIndex(run);
    assert Withheld(IndexAfter(run), s.scope);
    hide IndexAfter;
  }

  /** The operations of a run on the registers of a scope, in order. */
  function OpsFor(run: seq<Action>, scope: Scope): seq<Op> {
    if run == [] then []
    else
      var op := OpFor(run[|run| - 1], scope);
      OpsFor(run[..|run| - 1], scope) + (if op.Some? then [op.value] else [])
  }

  /** So the registers of a scope are those its operations leave, as the scripts would have them. */
  lemma {:induction false} RunsMoveRegisters(run: seq<Action>, scope: Scope)
    ensures AccessOf(IndexAfter(run), scope) == AccessAfter(OpsFor(run, scope))
  {
    if run == [] {
      assert AccessOf(EMPTY, scope) == Start();
    } else {
      var n := |run| - 1;
      var front, a := run[..n], run[n];
      RunsMoveRegisters(front, scope);
      RunKeepsIndex(front);
      RegistersMove(IndexAfter(front), a, scope);
      var op := OpFor(a, scope);
      hide Next, Memory, Script, OpFor, AccessOf;
      if op.Some? {
        ScriptsAgreeWithMemory(AccessOf(IndexAfter(front), scope), op.value);
        AfterNext(OpsFor(front, scope), op.value);
      } else {
        assert OpsFor(run, scope) == OpsFor(front, scope);
      }
    }
  }
}
