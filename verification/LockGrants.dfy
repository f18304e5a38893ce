/** When the lock protocol grants what: the exact condition of every lock step, the
    guards that may be held side by side, and runs that reach them. */
module LockGrants {
  import opened Outcomes
  import opened StateLocks

  ghost predicate NoOtherExclusive(k: Kernel, fd: nat)
    requires fd in k
  {
    forall other :: other in k && other != fd && k[other].inode == k[fd].inode ==> k[other].mode != Some(Exclusive)
  }

  ghost predicate NoOtherLocked(k: Kernel, fd: nat)
    requires fd in k
  {
    forall other :: other in k && other != fd && k[other].inode == k[fd].inode ==> k[other].mode.None?
  }

  // ---------- Which lock steps are granted ----------

  /** An instance or a diagnostic gets the maintenance lock exactly when nobody else
      holds it exclusively, a maintainer exactly when nobody else holds it at all. */
  lemma MaintenanceLockGranted(w: World, c: nat)
    requires Inv(w) && c in w.clients && w.clients[c].stage.MaintenanceOpen?
    ensures w.clients[c].maintenance.fd in w.kernel
    ensures !w.clients[c].kind.ForMaintenance? ==>
              (Enabled(w, LockMaintenance(c)) <==> NoOtherExclusive(w.kernel, w.clients[c].maintenance.fd))
    ensures w.clients[c].kind.ForMaintenance? ==>
              (Enabled(w, LockMaintenance(c)) <==> NoOtherLocked(w.kernel, w.clients[c].maintenance.fd))
  {
    assert LockAt(w, c, MaintenanceFile) == Some(w.clients[c].maintenance);
    var fd, k := w.clients[c].maintenance.fd, w.kernel;
    forall other | other in k && other != fd && k[other].inode == k[fd].inode
      ensures Compatible(k[other].mode, Some(Shared)) <==> k[other].mode != Some(Exclusive)
      ensures Compatible(k[other].mode, Some(Exclusive)) <==> k[other].mode.None?
    {
      if k[other].mode.Some? { assert k[other].mode.value.Shared? || k[other].mode.value.Exclusive?; }
    }
  }

  /** What the step leaves: the lock is held in exactly that mode, and no other
      description and no other client changed. */
  lemma MaintenanceLockTaken(w: World, c: nat)
    requires Inv(w) && Enabled(w, LockMaintenance(c))
    ensures var after, client := Next(w, LockMaintenance(c)), w.clients[c];
            var mode := if client.kind.ForMaintenance? then Exclusive else Shared;
            && after.kernel == w.kernel[client.maintenance.fd := w.kernel[client.maintenance.fd].(mode := Some(mode))]
            && c in after.clients && after.clients[c].maintenance == client.maintenance.(held := true)
            && after.clients - {c} == w.clients - {c}
            && after.(kernel := w.kernel, clients := w.clients) == w
  {
    hide Inv;
  }

  /** The instance lock is granted exactly when nobody else holds it. */
  lemma InstanceLockGranted(w: World, c: nat)
    requires Inv(w) && c in w.clients && w.clients[c].stage.InstanceOpen? && w.clients[c].instance.Some?
    ensures w.clients[c].instance.value.fd in w.kernel
    ensures Enabled(w, LockInstance(c)) <==> NoOtherLocked(w.kernel, w.clients[c].instance.value.fd)
  {
    assert LockAt(w, c, InstanceFile) == w.clients[c].instance;
    var fd, k := w.clients[c].instance.value.fd, w.kernel;
    forall other | other in k && other != fd && k[other].inode == k[fd].inode
      ensures Compatible(k[other].mode, Some(Exclusive)) <==> k[other].mode.None?
    {
    }
  }

  // ---------- Steps in a row ----------

  /** The steps are enabled one after the other and lead from `w` to `v`. */
  ghost predicate Leads(w: World, steps: seq<Step>, v: World)
    decreases |steps|
  {
    if steps == [] then v == w else Enabled(w, steps[0]) && Leads(Next(w, steps[0]), steps[1..], v)
  }

  lemma LeadsOn(w: World, step: Step, steps: seq<Step>, v: World)
    requires Enabled(w, step) && Leads(Next(w, step), steps, v)
    ensures Leads(w, [step] + steps, v)
  {
    assert ([step] + steps)[1..] == steps;
  }

  lemma {:induction false} LeadsTwice(u: World, first: seq<Step>, w: World, second: seq<Step>, v: World)
    requires Leads(u, first, w) && Leads(w, second, v)
    ensures Leads(u, first + second, v)
    decreases |first|
  {
    hide Enabled, Next;
    if first == [] {
      assert first + second == second;
    } else {
      LeadsTwice(Next(u, first[0]), first[1..], w, second, v);
      assert (first + second)[1..] == first[1..] + second;
    }
  }

  /** Such steps from an initial world are a run. */
  lemma {:induction false} LeadsIsRun(w: World, steps: seq<Step>, v: World) returns (run: seq<World>)
    requires Leads(w, steps, v)
    ensures |run| == |steps| + 1 && run[0] == w && run[|steps|] == v
    ensures forall i {:trigger steps[i]} :: 0 <= i < |steps| ==>
              Enabled(run[i], steps[i]) && run[i + 1] == Next(run[i], steps[i])
    decreases |steps|
  {
    hide Enabled, Next;
    run := [w];
    if steps != [] {
      var rest := LeadsIsRun(Next(w, steps[0]), steps[1..], v);
      run := [w] + rest;
      forall i {:trigger steps[i]} | 0 <= i < |steps|
        ensures Enabled(run[i], steps[i]) && run[i + 1] == Next(run[i], steps[i])
      {
        if i > 0 { assert steps[1..][i - 1] == steps[i]; }
      }
    }
  }

  // ---------- Guards side by side ----------

  /** No description of the inode is locked. */
  ghost predicate Free(k: Kernel, inode: nat) {
    forall fd :: fd in k && k[fd].inode == inode ==> k[fd].mode.None?
  }

  ghost predicate Shareable(k: Kernel, inode: nat) {
    forall fd :: fd in k && k[fd].inode == inode ==> k[fd].mode != Some(Exclusive)
  }

  /** The inode that opening this lock file at the state path gives. */
  function InodeAt(w: World, file: LockFile, created: nat): nat {
    if (w.root, file) in w.names then w.names[(w.root, file)] else created
  }

  /** Opening and locking the maintenance file, in any world that allows it. */
  lemma MaintenanceSteps(w: World, c: nat, kind: Kind, fd: nat, inode: nat) returns (v: World)
    requires Inv(w) && c !in w.clients && fd !in w.kernel && inode == InodeAt(w, MaintenanceFile, inode)
    requires if kind.ForMaintenance? then Free(w.kernel, inode) else Shareable(w.kernel, inode)
    ensures Leads(w, [OpenMaintenance(c, kind, fd, inode), LockMaintenance(c)], v) && Inv(v)
    ensures var mode := if kind.ForMaintenance? then Exclusive else Shared;
            && v.kernel == w.kernel[fd := Description(inode, Some(mode))]
            && v.clients == w.clients[c := Client(kind, w.root,
                 if kind.ForMaintenance? then Guarding else MaintenanceLocked, Lock(fd, inode, true), None)]
    ensures v.names == w.names[(w.root, MaintenanceFile) := inode] && v.root == w.root && v.pending == w.pending
  {
    hide Inv, Flock;
    var open, lock := OpenMaintenance(c, kind, fd, inode), LockMaintenance(c);
    StepKeeps(w, open);
    var unlocked := Next(w, open);
    MaintenanceLockGranted(unlocked, c);
    assert Enabled(unlocked, lock);
    StepKeeps(unlocked, lock);
    MaintenanceLockTaken(unlocked, c);
    v := Next(unlocked, lock);
    LeadsOn(unlocked, lock, [], v);
    LeadsOn(w, open, [lock], v);
    assert [open] + [lock] == [open, lock];
  }

  /** The steps by which a diagnostic gets its guard. */
  function DiagnosticSteps(c: nat, fd: nat, inode: nat): seq<Step> {
    [OpenMaintenance(c, ForDiagnostic, fd, inode), LockMaintenance(c)] + [CheckPending(c)]
  }

  /** Wherever the maintenance lock is not held exclusively and no marker is pending,
      a diagnostic gets a guard that passes `verify_identity`. */
  lemma DiagnosticStarts(w: World, c: nat, fd: nat, inode: nat) returns (v: World)
    requires Inv(w) && c !in w.clients && fd !in w.kernel && inode == InodeAt(w, MaintenanceFile, inode)
    requires Shareable(w.kernel, inode) && w.root !in w.pending
    ensures Leads(w, DiagnosticSteps(c, fd, inode), v) && Inv(v)
    ensures DiagnosticGuard(v, c) && Verifies(v, c)
    ensures forall d :: d in w.clients ==> d in v.clients && v.clients[d] == w.clients[d]
    ensures v.root == w.root && v.names == w.names[(w.root, MaintenanceFile) := inode]
  {
    hide Inv, Flock;
    var middle := MaintenanceSteps(w, c, ForDiagnostic, fd, inode);
    v := Next(middle, CheckPending(c));
    StepKeeps(middle, CheckPending(c));
    LeadsOn(middle, CheckPending(c), [], v);
    assert [CheckPending(c)] + [] == [CheckPending(c)];
    LeadsTwice(w, [OpenMaintenance(c, ForDiagnostic, fd, inode), LockMaintenance(c)], middle, [CheckPending(c)], v);
  }

  function InstanceSteps(c: nat, fd: nat, inode: nat, fd2: nat, inode2: nat): seq<Step> {
    [OpenMaintenance(c, ForInstance, fd, inode), LockMaintenance(c)]
    + ([CheckPending(c)] + [OpenInstance(c, fd2, inode2), LockInstance(c)])
  }

  /** Opening and locking the instance file behind the pending check. */
  lemma InstanceFileSteps(w: World, c: nat, fd: nat, inode: nat) returns (v: World)
    requires Inv(w) && c in w.clients && w.clients[c].stage.PendingChecked? && w.clients[c].kind.ForInstance?
    requires w.clients[c].instance.None? && w.clients[c].dir == w.root && fd !in w.kernel
    requires inode == InodeAt(w, InstanceFile, inode) && Free(w.kernel, inode)
    ensures Leads(w, [OpenInstance(c, fd, inode), LockInstance(c)], v) && Inv(v)
    ensures v.kernel == w.kernel[fd := Description(inode, Some(Exclusive))]
    ensures v.clients == w.clients[c := w.clients[c].(stage := Guarding, instance := Some(Lock(fd, inode, true)))]
    ensures v.names == w.names[(w.root, InstanceFile) := inode] && v.root == w.root && v.pending == w.pending
  {
    hide Inv, Flock;
    var open, lock := OpenInstance(c, fd, inode), LockInstance(c);
    StepKeeps(w, open);
    var ready := Next(w, open);
    InstanceLockGranted(ready, c);
    assert Enabled(ready, lock);
    StepKeeps(ready, lock);
    InstanceLockTaken(ready, c);
    v := Next(ready, lock);
    LeadsOn(ready, lock, [], v);
    LeadsOn(w, open, [lock], v);
    assert [open] + [lock] == [open, lock];
  }

  /** Wherever besides the instance lock is not held at all, an instance gets its guard. */
  lemma InstanceStarts(w: World, c: nat, fd: nat, inode: nat, fd2: nat, inode2: nat) returns (v: World)
    requires Inv(w) && c !in w.clients && fd !in w.kernel && fd2 !in w.kernel && fd != fd2 && inode != inode2
    requires inode == InodeAt(w, MaintenanceFile, inode) && inode2 == InodeAt(w, InstanceFile, inode2)
    requires Shareable(w.kernel, inode) && Free(w.kernel, inode2) && w.root !in w.pending
    ensures Leads(w, InstanceSteps(c, fd, inode, fd2, inode2), v) && Inv(v)
    ensures InstanceGuard(v, c) && Verifies(v, c) && v.clients[c].dir == w.root && v.pending == w.pending
    ensures v.clients[c].maintenance.inode == inode
    ensures v.kernel.Keys == w.kernel.Keys + {fd, fd2} && v.clients.Keys == w.clients.Keys + {c}
  {
    hide Inv, Flock, Leads, Verifies;
    var first, check := [OpenMaintenance(c, ForInstance, fd, inode), LockMaintenance(c)], CheckPending(c);
    var second := [OpenInstance(c, fd2, inode2), LockInstance(c)];
    var middle := MaintenanceSteps(w, c, ForInstance, fd, inode);
    StepKeeps(middle, check);
    var checked := Next(middle, check);
    v := InstanceFileSteps(checked, c, fd2, inode2);
    LeadsOn(middle, check, second, v);
    LeadsTwice(w, first, middle, [check] + second, v);
    JustLocked(v, c);
  }

  lemma JustLocked(w: World, c: nat)
    requires c in w.clients && w.clients[c].dir == w.root
    requires Bound(w, w.root, MaintenanceFile, w.clients[c].maintenance)
    requires w.clients[c].instance.Some? ==> Bound(w, w.root, InstanceFile, w.clients[c].instance.value)
    ensures Verifies(w, c)
  {
  }

  lemma InstanceLockTaken(w: World, c: nat)
    requires Inv(w) && Enabled(w, LockInstance(c))
    ensures var after, client := Next(w, LockInstance(c)), w.clients[c];
            && after.kernel == w.kernel[client.instance.value.fd :=
                 w.kernel[client.instance.value.fd].(mode := Some(Exclusive))]
            && after.clients == w.clients[c := client.(stage := Guarding,
                 instance := Some(client.instance.value.(held := true)))]
            && after.(kernel := w.kernel, clients := w.clients) == w
  {
    hide Inv;
  }

  /** An instance that runs never keeps a diagnostic out: both guards are then held
      at the same time and both pass `verify_identity`. */
  lemma DiagnosticJoinsInstance(w: World, c: nat, d: nat, fd: nat) returns (v: World)
    requires Inv(w) && InstanceGuard(w, c) && Verifies(w, c) && w.clients[c].dir !in w.pending
    requires d !in w.clients && fd !in w.kernel
    ensures Leads(w, DiagnosticSteps(d, fd, w.clients[c].maintenance.inode), v)
    ensures InstanceGuard(v, c) && Verifies(v, c) && DiagnosticGuard(v, d) && Verifies(v, d)
  {
    hide DiagnosticSteps;
    assert Shareable(w.kernel, w.clients[c].maintenance.inode) by { SharedKeepsExclusiveOut(w, c); }
    hide Inv, Leads;
    v := DiagnosticStarts(w, d, fd, w.clients[c].maintenance.inode);
  }

  lemma SharedKeepsExclusiveOut(w: World, c: nat)
    requires Inv(w) && InstanceGuard(w, c)
    ensures Shareable(w.kernel, w.clients[c].maintenance.inode)
  {
    assert LockAt(w, c, MaintenanceFile) == Some(w.clients[c].maintenance);
    var l := w.clients[c].maintenance;
    forall fd | fd in w.kernel && w.kernel[fd].inode == l.inode ensures w.kernel[fd].mode != Some(Exclusive) {
      if fd != l.fd { assert Compatible(w.kernel[fd].mode, w.kernel[l.fd].mode); }
    }
  }

  /** Hence runs reach an instance guard beside a diagnostic guard. */
  lemma GuardsMeet(w: World, c: nat, d: nat) returns (run: seq<World>, steps: seq<Step>)
    requires Initial(w) && w.kernel == map[] && w.root !in w.pending && w.names == map[] && c != d
    ensures IsRun(run, steps) && run[0] == w
    ensures InstanceGuard(run[|steps|], c) && DiagnosticGuard(run[|steps|], d)
    ensures Verifies(run[|steps|], c) && Verifies(run[|steps|], d)
  {
    hide Next, Enabled, InstanceSteps, DiagnosticSteps;
    var middle := InstanceStarts(w, c, 0, 0, 1, 1);
    var v := DiagnosticJoinsInstance(middle, c, d, 2);
    steps := InstanceSteps(c, 0, 0, 1, 1) + DiagnosticSteps(d, 2, 0);
    LeadsTwice(w, InstanceSteps(c, 0, 0, 1, 1), middle, DiagnosticSteps(d, 2, 0), v);
    run := LeadsIsRun(w, steps, v);
  }

  // ---------- Guards whose names stay ----------

  lemma VerifiesKept(w: World, step: Step)
    requires (forall c :: c in w.clients ==> Verifies(w, c)) && Enabled(w, step) && NamesStable(w, step)
    ensures forall c :: c in Next(w, step).clients ==> Verifies(Next(w, step), c)
  {
    hide Flock, Unlocked, HeldBySomeone;
  }

  /** While names and path stay bound, every guard and every client on its way to one
      passes `verify_identity`. */
  lemma {:induction false} BoundGuardsVerify(run: seq<World>, steps: seq<Step>, i: nat, c: nat)
    requires IsRun(run, steps) && i < |run| && c in run[i].clients
    requires forall j {:trigger steps[j]} :: 0 <= j < |steps| ==> NamesStable(run[j], steps[j])
    ensures Verifies(run[i], c)
  {
    hide Next, Enabled, NamesStable, Verifies;
    if i > 0 {
      var before, step := run[i - 1], steps[i - 1];
      forall d | d in before.clients ensures Verifies(before, d) { BoundGuardsVerify(run, steps, i - 1, d); }
      VerifiesKept(before, step);
    }
  }

  // ---------- The maintenance lock around the instance lock ----------

  predicate Nested(client: Client) {
    && (client.instance.Some? && client.instance.value.held ==> client.maintenance.held)
    && (client.stage in {MaintenanceLocked, PendingChecked, InstanceOpen, Guarding} ==> client.maintenance.held)
  }

  /** The instance lock is held only under the maintenance lock, on every run. */
  lemma {:induction false} InstanceUnderMaintenance(run: seq<World>, steps: seq<Step>, i: nat, c: nat)
    requires IsRun(run, steps) && i < |run| && c in run[i].clients
    ensures Nested(run[i].clients[c])
  {
    hide Flock, HeldBySomeone, Opens;
    if i > 0 {
      var step := steps[i - 1];
      assert Enabled(run[i - 1], step);
      if c in run[i - 1].clients { InstanceUnderMaintenance(run, steps, i - 1, c); }
    }
  }
}
