// Timestamped access registers: those of the index, written as scripts and as an in-memory store, and those of the ledger.
module AccessRegisters {
  import opened Wrappers

  /** An access as it was last set, and when; Unset when it never was. */
  datatype Register = Unset | Set(revoked: bool, changedAt: nat)

  datatype Target = OnInstallation | OnRepository

  datatype Op = Op(target: Target, revokes: bool, at: nat, force: bool)

  /** The registers of one repository and of its installation. */
  datatype Access = Access(installation: Register, repository: Register)

  function Max(x: int, y: int): int {
    if x < y then y else x
  }

  predicate IsRevoked(r: Register) {
    r.Set? && r.revoked
  }

  // ----- the scripts: -1 is the time of an unset register, and the answer to an operation that is refused

  function CurrentAt(r: Register): int {
    if r.Set? then r.changedAt else -1
  }

  function RevokeScript(r: Register, op: Op): (Register, int) {
    var effectiveAt := Max(CurrentAt(r), op.at);
    if CurrentAt(r) > op.at && !(op.force && r.Set? && !r.revoked) then (r, -1)
    else if r == Set(false, op.at) && !op.force then (r, -1)
    else (Set(true, effectiveAt), effectiveAt)
  }

  function RestoreScript(r: Register, op: Op): (Register, int) {
    var effectiveAt := Max(CurrentAt(r), op.at);
    if CurrentAt(r) > op.at && !(op.force && IsRevoked(r)) then (r, if r.Set? && !r.revoked then CurrentAt(r) else -1)
    else (Set(false, effectiveAt), effectiveAt)
  }

  /** A repository is not restored while its installation is revoked. */
  function Script(a: Access, op: Op): (Access, int) {
    match op.target
    case OnInstallation =>
      var (r, answer) := if op.revokes then RevokeScript(a.installation, op) else RestoreScript(a.installation, op);
      (a.(installation := r), answer)
    case OnRepository =>
      if !op.revokes && IsRevoked(a.installation) then (a, -1)
      else
        var (r, answer) := if op.revokes then RevokeScript(a.repository, op) else RestoreScript(a.repository, op);
        (a.(repository := r), answer)
  }

  // ----- the in-memory store: installations have a record, repositories a set of the revoked and a map of times

  function DeleteInstallation(r: Register, at: nat, force: bool): (Register, Option<int>) {
    var effectiveAt := Max(if r.Set? then r.changedAt else -1, at);
    if r.Set? && ((r.changedAt > at && !(force && !r.revoked)) || (!force && r.changedAt == at && !r.revoked)) then (r, None)
    else (Set(true, effectiveAt), Some(effectiveAt))
  }

  function RestoreInstallation(r: Register, at: nat, force: bool): (Register, Option<int>) {
    var effectiveAt := Max(if r.Set? then r.changedAt else -1, at);
    if r.Set? && r.changedAt > at && !(force && r.revoked) then (r, if r.revoked then None else Some(r.changedAt))
    else (Set(false, effectiveAt), Some(effectiveAt))
  }

  function DeleteRepository(r: Register, at: nat, force: bool): (Register, Option<int>) {
    var currentAt, active := CurrentAt(r), !IsRevoked(r);
    if (currentAt > at && !(force && active)) || (!force && currentAt == at && active) then (r, None)
    else (Set(true, Max(currentAt, at)), Some(Max(currentAt, at)))
  }

  function RestoreRepository(installation: Register, r: Register, at: nat, force: bool): (Register, Option<int>) {
    var currentAt, revoked := CurrentAt(r), IsRevoked(r);
    if IsRevoked(installation) then (r, None)
    else if currentAt > at && !(force && revoked) then (r, if revoked then None else Some(currentAt))
    else (Set(false, Max(currentAt, at)), Some(Max(currentAt, at)))
  }

  function Memory(a: Access, op: Op): (Access, Option<int>) {
    match op.target
    case OnInstallation =>
      var (r, answer) := if op.revokes then DeleteInstallation(a.installation, op.at, op.force) else RestoreInstallation(a.installation, op.at, op.force);
      (a.(installation := r), answer)
    case OnRepository =>
      var (r, answer) := if op.revokes then DeleteRepository(a.repository, op.at, op.force) else RestoreRepository(a.installation, a.repository, op.at, op.force);
      (a.(repository := r), answer)
  }

  /** The scripts and the in-memory store are one function on the two registers; -1 and null both mean refused. */
  lemma ScriptsAgreeWithMemory(a: Access, op: Op)
    ensures Script(a, op).0 == Memory(a, op).0
    ensures Script(a, op).1 == if Memory(a, op).1.Some? then Memory(a, op).1.value else -1
  {
  }

  /** Time in a register never goes back, even when forced. */
  lemma TimeNeverDecreases(a: Access, op: Op)
    ensures var b := Script(a, op).0;
            CurrentAt(a.installation) <= CurrentAt(b.installation) && CurrentAt(a.repository) <= CurrentAt(b.repository)
  {
  }

  /** Without force the later change wins, and at one time an active register stays. */
  lemma LaterChangeWins(a: Access, op: Op)
    requires !op.force && (op.revokes || op.target.OnInstallation? || !IsRevoked(a.installation))
    ensures var r := RegisterOf(a, op.target);
            var stays := r.Set? && (op.at < r.changedAt || (op.at == r.changedAt && !r.revoked));
            && RegisterOf(Script(a, op).0, op.target) == (if stays then r else Set(op.revokes, op.at))
            && Script(a, op).1 == if !stays then op.at else if op.revokes || r.revoked then -1 else r.changedAt
  {
  }

  /** With force the register is what was asked for, at the later of both times. */
  lemma ForceDecides(a: Access, op: Op)
    requires op.force && (op.revokes || op.target.OnInstallation? || !IsRevoked(a.installation))
    ensures var r, r' := RegisterOf(a, op.target), RegisterOf(Script(a, op).0, op.target);
            r'.Set? && r'.revoked == op.revokes && r'.changedAt == if r.Set? && op.at < r.changedAt then r.changedAt else op.at
  {
  }

  /** The register that is not asked for stays, and both do when a repository is to be restored under a revoked installation. */
  lemma OthersStay(a: Access, op: Op)
    ensures op.target.OnInstallation? ==> Script(a, op).0.repository == a.repository
    ensures op.target.OnRepository? ==> Script(a, op).0.installation == a.installation
    ensures op.target.OnRepository? && !op.revokes && IsRevoked(a.installation) ==> Script(a, op) == (a, -1)
  {
  }

  // ----- operations in any order

  function Start(): Access {
    Access(Unset, Unset)
  }

  function AccessAfter(ops: seq<Op>): Access {
    if ops == [] then Start() else Script(AccessAfter(ops[..|ops| - 1]), ops[|ops| - 1]).0
  }

  function RegisterOf(a: Access, target: Target): Register {
    if target.OnInstallation? then a.installation else a.repository
  }

  ghost predicate Unforced(ops: seq<Op>) {
    forall op | op in ops :: !op.force
  }

  /** The register is at least as late as what the operation asks for; at one time an active register is later. */
  predicate Covers(r: Register, op: Op) {
    r.Set? && (op.at < r.changedAt || (op.at == r.changedAt && (op.revokes || !r.revoked)))
  }

  /** The register is unset or as one of the operations left it. */
  ghost predicate From(r: Register, ops: seq<Op>, target: Target) {
    r.Unset? || exists op :: op in ops && op.target == target && r == Set(op.revokes, op.at)
  }

  /** The operations that no other register can block: all but restorations of a repository. */
  predicate Sure(op: Op) {
    op.target.OnInstallation? || op.revokes
  }

  lemma ScriptCovers(a: Access, op: Op, other: Op)
    requires !op.force
    ensures Covers(RegisterOf(a, other.target), other) ==> Covers(RegisterOf(Script(a, op).0, other.target), other)
    ensures Sure(op) || !IsRevoked(a.installation) ==> Covers(RegisterOf(Script(a, op).0, op.target), op)
  {
  }

  lemma ScriptFrom(a: Access, ops: seq<Op>, op: Op, target: Target)
    requires !op.force && From(RegisterOf(a, target), ops, target)
    ensures From(RegisterOf(Script(a, op).0, target), ops + [op], target)
  {
    var r, r' := RegisterOf(a, target), RegisterOf(Script(a, op).0, target);
    assert r' == r || (op.target == target && r' == Set(op.revokes, op.at));
    hide Script;
    if r' != r {
      assert op in ops + [op];
    } else if r.Set? {
      var x :| x in ops && x.target == target && r == Set(x.revokes, x.at);
      assert x in ops + [op];
    }
  }

  /** Whatever the order, a register ends as one of its operations left it, and covers every operation that is not blocked. */
  lemma {:induction false} AlwaysCovers(ops: seq<Op>, target: Target)
    requires Unforced(ops)
    ensures From(RegisterOf(AccessAfter(ops), target), ops, target)
    ensures forall op | op in ops && op.target == target && (Sure(op) || forall x | x in ops :: !(x.target.OnInstallation? && x.revokes)) ::
              Covers(RegisterOf(AccessAfter(ops), target), op)
    ensures (forall x | x in ops :: !(x.target.OnInstallation? && x.revokes)) ==> !IsRevoked(AccessAfter(ops).installation)
  {
    if ops != [] {
      var n := |ops| - 1;
      var front, last := ops[..n], ops[n];
      var a := AccessAfter(front);
      assert front + [last] == ops && AccessAfter(ops) == Script(a, last).0;
      AlwaysCovers(front, target);
      ScriptFrom(a, front, last, target);
      hide AccessAfter, Covers, From;
      forall op | op in ops && op.target == target && (Sure(op) || forall x | x in ops :: !(x.target.OnInstallation? && x.revokes))
        ensures Covers(RegisterOf(AccessAfter(ops), target), op)
      {
        ScriptCovers(a, last, op);
        ScriptCovers(a, last, last);
        assert forall x | x in front :: x in ops;
      }
    }
  }

  ghost predicate SameMembers(a: seq<Op>, b: seq<Op>) {
    forall op :: op in a <==> op in b
  }

  /** A register that covers every operation on it is decided by what the operations are. */
  ghost predicate CoversAll(r: Register, ops: seq<Op>, target: Target) {
    forall op | op in ops && op.target == target :: Covers(r, op)
  }

  lemma CoveredOnce(r: Register, s: Register, a: seq<Op>, b: seq<Op>, target: Target)
    requires SameMembers(a, b) && From(r, a, target) && From(s, b, target) && CoversAll(r, a, target) && CoversAll(s, b, target)
    ensures r == s
  {
    if r.Set? {
      var x :| x in a && x.target == target && r == Set(x.revokes, x.at);
      assert Covers(s, x);
    }
    if s.Set? {
      var y :| y in b && y.target == target && s == Set(y.revokes, y.at);
      assert Covers(r, y);
    }
  }

  /** An installation's register converges: the same operations without force end alike, in whatever order and number. */
  lemma InstallationConverges(a: seq<Op>, b: seq<Op>)
    requires SameMembers(a, b) && Unforced(a)
    ensures AccessAfter(a).installation == AccessAfter(b).installation
  {
    AlwaysCovers(a, OnInstallation);
    AlwaysCovers(b, OnInstallation);
    hide AccessAfter;
    CoveredOnce(AccessAfter(a).installation, AccessAfter(b).installation, a, b, OnInstallation);
  }

  /** The latest time wins, and an active register wins a tie. */
  lemma LatestWins(ops: seq<Op>)
    requires Unforced(ops)
    ensures var r := AccessAfter(ops).installation;
            if r.Unset? then forall op | op in ops :: op.target.OnRepository?
            else && (exists op :: op in ops && op.target.OnInstallation? && op.at == r.changedAt)
                 && (forall op | op in ops && op.target.OnInstallation? :: op.at <= r.changedAt)
                 && (r.revoked <==> forall op | op in ops && op.target.OnInstallation? && op.at == r.changedAt :: op.revokes)
  {
    AlwaysCovers(ops, OnInstallation);
    hide AccessAfter;
  }

  // ----- a repository's register

  /** Two orders of the same four operations: restoring a repository is in vain while its installation is revoked. */
  lemma RestoreDependsOnOrder()
    ensures var revoked, away, restored, back := Op(OnRepository, true, 0, false), Op(OnInstallation, true, 1, false),
                                                 Op(OnRepository, false, 2, false), Op(OnInstallation, false, 3, false);
            && AccessAfter([revoked, away, restored, back]).repository == Set(true, 0)
            && AccessAfter([revoked, restored, away, back]).repository == Set(false, 2)
  {
    var revoked, away, restored, back := Op(OnRepository, true, 0, false), Op(OnInstallation, true, 1, false),
                                         Op(OnRepository, false, 2, false), Op(OnInstallation, false, 3, false);
    AfterFour(revoked, away, restored, back);
    AfterFour(revoked, restored, away, back);
  }

  lemma AfterNext(ops: seq<Op>, op: Op)
    ensures AccessAfter(ops + [op]) == Script(AccessAfter(ops), op).0
  {
    hide Script;
    assert (ops + [op])[..|ops|] == ops;
  }

  lemma AfterFour(w: Op, x: Op, y: Op, z: Op)
    ensures AccessAfter([w, x, y, z]) == Script(Script(Script(Script(Start(), w).0, x).0, y).0, z).0
  {
    assert AccessAfter([]) == Start();
    hide AccessAfter, Script;
    AfterNext([], w);
    AfterNext([w], x);
    AfterNext([w, x], y);
    AfterNext([w, x, y], z);
    assert [] + [w] == [w] && [w] + [x] == [w, x] && [w, x] + [y] == [w, x, y] && [w, x, y] + [z] == [w, x, y, z];
  }

  /** No installation is revoked, or every restoration of the repository is earlier than one of its revocations. */
  ghost predicate OrderFree(ops: seq<Op>) {
    || (forall op | op in ops :: !(op.target.OnInstallation? && op.revokes))
    || (forall op | op in ops && op.target.OnRepository? && !op.revokes ::
          exists v :: v in ops && v.target.OnRepository? && v.revokes && op.at < v.at)
  }

  lemma OrderFreeConverges(a: seq<Op>, b: seq<Op>)
    requires Unforced(a) && OrderFree(a) && multiset(a) == multiset(b)
    ensures AccessAfter(a).repository == AccessAfter(b).repository
  {
    assert SameMembers(a, b) by { assert forall op :: (op in a <==> op in multiset(a)) && (op in b <==> op in multiset(b)); }
    AlwaysCovers(a, OnRepository);
    AlwaysCovers(b, OnRepository);
    var r, s := AccessAfter(a).repository, AccessAfter(b).repository;
    hide AccessAfter;
    if forall op | op in a :: !(op.target.OnInstallation? && op.revokes) {
      CoveredOnce(r, s, a, b, OnRepository);
    } else {
      forall op | op in a && op.target.OnRepository?
        ensures Covers(r, op) && Covers(s, op)
      {
        if !op.revokes {
          var v :| v in a && v.target.OnRepository? && v.revokes && op.at < v.at;
          assert Covers(r, v) && Covers(s, v);
        }
      }
      CoveredOnce(r, s, a, b, OnRepository);
    }
  }

  /** The operations on one target, in order. */
  function On(ops: seq<Op>, target: Target): (r: seq<Op>)
    ensures forall op :: op in r <==> op in ops && op.target == target
  {
    if ops == [] then [] else (if ops[0].target == target then [ops[0]] else []) + On(ops[1..], target)
  }

  lemma {:induction false} OnBoth(ops: seq<Op>)
    ensures multiset(On(ops, OnRepository) + On(ops, OnInstallation)) == multiset(ops)
  {
    if ops != [] {
      OnBoth(ops[1..]);
      assert ops == [ops[0]] + ops[1..];
    }
  }

  /** Without operations on the installation its register stays. */
  lemma {:induction false} InstallationStays(front: seq<Op>, ops: seq<Op>)
    requires forall op | op in ops :: op.target.OnRepository?
    ensures AccessAfter(front + ops).installation == AccessAfter(front).installation
    decreases |ops|
  {
    if ops == [] {
      assert front + ops == front;
    } else {
      var n := |ops| - 1;
      assert (front + ops)[..|front + ops| - 1] == front + ops[..n];
      InstallationStays(front, ops[..n]);
    }
  }

  /** And the other way round. */
  lemma {:induction false} RepositoryStays(front: seq<Op>, ops: seq<Op>)
    requires forall op | op in ops :: op.target.OnInstallation?
    ensures AccessAfter(front + ops).repository == AccessAfter(front).repository
    decreases |ops|
  {
    if ops == [] {
      assert front + ops == front;
    } else {
      var n := |ops| - 1;
      assert (front + ops)[..|front + ops| - 1] == front + ops[..n];
      RepositoryStays(front, ops[..n]);
    }
  }

  /** With the installation revoked first, only revocations of the repository count. */
  lemma {:induction false} BlockedFirst(first: Op, ops: seq<Op>)
    requires first.target.OnInstallation? && first.revokes && forall op | op in ops :: op.target.OnRepository? && !op.force
    ensures var r := AccessAfter([first] + ops).repository;
            r.Unset? || exists v :: v in ops && v.revokes && r == Set(true, v.at)
    decreases |ops|
  {
    if ops == [] {
      assert [first] + ops == [first] && [first][..0] == [];
    } else {
      var n := |ops| - 1;
      var front := [first] + ops[..n];
      assert ([first] + ops)[..|[first] + ops| - 1] == front && ops == ops[..n] + [ops[n]];
      BlockedFirst(first, ops[..n]);
      InstallationStays([first], ops[..n]);
      assert [first][..0] == [] && IsRevoked(AccessAfter([first]).installation);
      assert AccessAfter([first] + ops) == Script(AccessAfter(front), ops[n]).0;
      hide AccessAfter;
    }
  }

  /** With the repository's operations first, all of them count. */
  lemma FreeFirst(ops: seq<Op>)
    requires Unforced(ops) && forall op | op in ops :: op.target.OnRepository?
    ensures CoversAll(AccessAfter(ops).repository, ops, OnRepository)
  {
    AlwaysCovers(ops, OnRepository);
    hide AccessAfter;
  }

  /** A list with one element moved to the front. */
  function Promoted(ops: seq<Op>, i: nat): seq<Op>
    requires i < |ops|
  {
    [ops[i]] + (ops[..i] + ops[i + 1..])
  }

  lemma PromotedHolds(ops: seq<Op>, i: nat)
    requires i < |ops|
    ensures multiset(Promoted(ops, i)) == multiset(ops)
  {
    assert ops == ops[..i] + [ops[i]] + ops[i + 1..];
  }

  /** An order in which the installation is revoked first. */
  lemma BlockedOrder(a: seq<Op>, i: nat) returns (b: seq<Op>)
    requires Unforced(a) && i < |a| && a[i].target.OnInstallation? && a[i].revokes
    ensures multiset(b) == multiset(a)
    ensures var r := AccessAfter(b).repository; r.Unset? || exists v :: v in a && v.target.OnRepository? && v.revokes && r == Set(true, v.at)
  {
    var ours, theirs := On(a, OnRepository), On(a, OnInstallation);
    assert a[i] in theirs;
    hide On;
    var k :| 0 <= k < |theirs| && theirs[k] == a[i];
    var others := theirs[..k] + theirs[k + 1..];
    assert forall op | op in others :: op in theirs;
    b := ([a[i]] + ours) + others;
    SameOperations(a, k);
    BlockedFirst(a[i], ours);
    RepositoryStays([a[i]] + ours, others);
  }

  lemma SameOperations(a: seq<Op>, k: nat)
    requires k < |On(a, OnInstallation)|
    ensures var theirs := On(a, OnInstallation);
            multiset(([theirs[k]] + On(a, OnRepository)) + (theirs[..k] + theirs[k + 1..])) == multiset(a)
  {
    hide On;
    var ours, theirs := On(a, OnRepository), On(a, OnInstallation);
    OnBoth(a);
    PromotedHolds(theirs, k);
    var others := theirs[..k] + theirs[k + 1..];
    assert multiset(([theirs[k]] + ours) + others) == multiset(ours) + multiset([theirs[k]] + others);
  }

  lemma FreeOrder(a: seq<Op>) returns (b: seq<Op>)
    requires Unforced(a)
    ensures multiset(b) == multiset(a) && CoversAll(AccessAfter(b).repository, a, OnRepository)
  {
    var ours, theirs := On(a, OnRepository), On(a, OnInstallation);
    b := ours + theirs;
    OnBoth(a);
    FreeFirst(ours);
    RepositoryStays(ours, theirs);
  }

  /**
   * A repository's register is independent of the order of operations without force exactly when the installation is
   * never revoked among them or every restoration of the repository is earlier than one of its revocations.
   */
  lemma RepositoryConvergesExactly(a: seq<Op>)
    requires Unforced(a)
    ensures (forall b | multiset(b) == multiset(a) :: AccessAfter(b).repository == AccessAfter(a).repository) <==> OrderFree(a)
  {
    if OrderFree(a) {
      forall b | multiset(b) == multiset(a)
        ensures AccessAfter(b).repository == AccessAfter(a).repository
      {
        OrderFreeConverges(a, b);
      }
    } else {
      var op :| op in a && op.target.OnInstallation? && op.revokes;
      var i :| 0 <= i < |a| && a[i] == op;
      var x :| x in a && x.target.OnRepository? && !x.revokes && forall v | v in a && v.target.OnRepository? && v.revokes :: v.at <= x.at;
      var blocked := BlockedOrder(a, i);
      var free := FreeOrder(a);
      assert Covers(AccessAfter(free).repository, x);
      hide AccessAfter;
      assert AccessAfter(blocked).repository != AccessAfter(free).repository;
    }
  }

  // ----- the ledger's registers

  function Ledger(r: Register, op: Op): (Register, bool) {
    if r.Set? && r.changedAt > op.at && !(op.force && r.revoked != op.revokes) then (r, false)
    else if r.Set? && r.changedAt == op.at && r.revoked != op.revokes && !op.force then (r, false)
    else (Set(op.revokes, Max(if r.Set? then r.changedAt else op.at, op.at)), true)
  }

  function LedgerAfter(ops: seq<Op>): Register {
    if ops == [] then Unset else Ledger(LedgerAfter(ops[..|ops| - 1]), ops[|ops| - 1]).0
  }

  lemma LedgerTimeNeverDecreases(r: Register, op: Op)
    ensures CurrentAt(r) <= CurrentAt(Ledger(r, op).0)
  {
  }

  /** The last time anything was asked for. */
  ghost predicate Latest(ops: seq<Op>, at: nat) {
    (exists op :: op in ops && op.at == at) && forall op | op in ops :: op.at <= at
  }

  lemma LatestIsOne(ops: seq<Op>, s: nat, t: nat)
    requires Latest(ops, s) && Latest(ops, t)
    ensures s == t
  {
  }

  ghost predicate Tied(ops: seq<Op>, at: nat) {
    exists x, y :: x in ops && y in ops && x.at == y.at == at && x.revokes && !y.revokes
  }

  /** Position i is the first at the register's time, and the register is as that operation left it. */
  ghost predicate FirstLeft(r: Register, ops: seq<Op>, i: int) {
    && r.Set? && 0 <= i < |ops| && ops[i].at == r.changedAt && ops[i].revokes == r.revoked
    && forall k | 0 <= k < i :: ops[k].at < r.changedAt
  }

  /** Who came first at the latest time decides. */
  lemma {:induction false} LedgerLatest(ops: seq<Op>)
    requires Unforced(ops)
    ensures var r := LedgerAfter(ops);
            if ops == [] then r.Unset? else r.Set? && Latest(ops, r.changedAt) && exists i :: FirstLeft(r, ops, i)
  {
    if ops != [] {
      var n := |ops| - 1;
      var front, last := ops[..n], ops[n];
      LedgerLatest(front);
      assert ops == front + [last] && LedgerAfter(ops) == Ledger(LedgerAfter(front), last).0;
      hide LedgerAfter;
      var r := LedgerAfter(ops);
      if n == 0 || LedgerAfter(front).changedAt < last.at {
        assert forall k | 0 <= k < n :: ops[k] in front;
        assert FirstLeft(r, ops, n);
      } else {
        var i :| FirstLeft(LedgerAfter(front), front, i);
        assert FirstLeft(r, ops, i);
      }
    }
  }

  /** Of a revocation and a restoration at one time, the first to arrive stays. */
  lemma TieDependsOnOrder()
    ensures var x, y := Op(OnRepository, true, 1, false), Op(OnRepository, false, 1, false);
            LedgerAfter([x, y]) == Set(true, 1) && LedgerAfter([y, x]) == Set(false, 1)
  {
    var x, y := Op(OnRepository, true, 1, false), Op(OnRepository, false, 1, false);
    assert [x, y][..1] == [x] && [y, x][..1] == [y] && [x][..0] == [] && [y][..0] == [];
    assert LedgerAfter([x]) == Set(true, 1) && LedgerAfter([y]) == Set(false, 1);
  }

  /** The ledger's register is independent of the order of operations without force exactly when the latest time is not tied. */
  lemma LedgerConvergesExactly(a: seq<Op>, at: nat)
    requires Latest(a, at) && Unforced(a)
    ensures (forall b | multiset(b) == multiset(a) :: LedgerAfter(b) == LedgerAfter(a)) <==> !Tied(a, at)
  {
    if Tied(a, at) {
      var x, y :| x in a && y in a && x.at == y.at == at && x.revokes && !y.revokes;
      var i :| 0 <= i < |a| && a[i] == x;
      var j :| 0 <= j < |a| && a[j] == y;
      FirstDecides(a, i, at);
      FirstDecides(a, j, at);
      hide LedgerAfter;
      assert LedgerAfter(Promoted(a, i)) != LedgerAfter(Promoted(a, j));
    } else {
      forall b | multiset(b) == multiset(a)
        ensures LedgerAfter(b) == LedgerAfter(a)
      {
        SameLedger(a, b, at);
      }
    }
  }

  lemma Reordered(a: seq<Op>, b: seq<Op>)
    requires multiset(a) == multiset(b)
    ensures SameMembers(a, b)
  {
    assert forall op :: (op in a <==> op in multiset(a)) && (op in b <==> op in multiset(b));
  }

  lemma FirstDecides(a: seq<Op>, i: nat, at: nat)
    requires Latest(a, at) && Unforced(a) && i < |a| && a[i].at == at
    ensures multiset(Promoted(a, i)) == multiset(a) && LedgerAfter(Promoted(a, i)) == Set(a[i].revokes, at)
  {
    var b := Promoted(a, i);
    PromotedHolds(a, i);
    Reordered(a, b);
    LedgerLatest(b);
    assert b[0] == a[i];
    hide LedgerAfter, Promoted;
    LatestIsOne(b, at, LedgerAfter(b).changedAt);
    var k :| FirstLeft(LedgerAfter(b), b, k);
  }

  lemma SameLedger(a: seq<Op>, b: seq<Op>, at: nat)
    requires Latest(a, at) && multiset(b) == multiset(a) && !Tied(a, at) && Unforced(a)
    ensures LedgerAfter(b) == LedgerAfter(a)
  {
    Reordered(a, b);
    LedgerLatest(a);
    LedgerLatest(b);
    hide LedgerAfter;
    assert a != [] && b != [];
    LatestIsOne(a, at, LedgerAfter(a).changedAt);
    LatestIsOne(a, at, LedgerAfter(b).changedAt);
    var i :| FirstLeft(LedgerAfter(a), a, i);
    var j :| FirstLeft(LedgerAfter(b), b, j);
    assert a[i] in a && b[j] in a;
  }
}
