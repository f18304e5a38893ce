/** The instance/maintenance lock protocol (src/state_file/mod.rs): flock on open
    file descriptions, stable device/inode checks, and the pending-maintenance
    marker, for any number of interleaved processes. */
module StateLocks {
  import opened Outcomes

  datatype Mode = Shared | Exclusive
  datatype LockFile = InstanceFile | MaintenanceFile

  /** An open file description. It outlives its guard while an alias is open. */
  datatype Description = Description(inode: nat, mode: Option<Mode>)

  type Kernel = map<nat, Description>

  predicate Compatible(left: Option<Mode>, right: Option<Mode>) {
    left.None? || right.None? || (left == Some(Shared) && right == Some(Shared))
  }

  /** Nonblocking flock; None when another description holds a conflicting lock. */
  function Flock(k: Kernel, fd: nat, mode: Option<Mode>): Option<Kernel>
    requires fd in k
  {
    if forall other :: other in k && other != fd && k[other].inode == k[fd].inode ==> Compatible(k[other].mode, mode)
    then Some(k[fd := k[fd].(mode := mode)])
    else None
  }

  /** `StateLock`: the descriptor, the identity recorded when it was opened, and `held`. */
  datatype Lock = Lock(fd: nat, inode: nat, held: bool)

  function Unlocked(k: Kernel, l: Lock): Kernel {
    if l.held && l.fd in k then k[l.fd := k[l.fd].(mode := None)] else k
  }

  // ---------- The guard object ----------

  class OpenDescriptions {
    var table: Kernel

    constructor ()
      ensures table == map[]
    {
      table := map[];
    }
  }

  class StateLock {
    const kernel: OpenDescriptions
    const fd: nat
    const inode: nat
    var held: bool

    ghost function Value(): Lock
      reads this
    {
      Lock(fd, inode, held)
    }

    constructor (kernel: OpenDescriptions, fd: nat, mode: Mode)
      requires fd in kernel.table && Flock(kernel.table, fd, Some(mode)).Some?
      modifies kernel
      ensures this.kernel == kernel && Value() == Lock(fd, old(kernel.table[fd].inode), true)
      ensures Some(kernel.table) == Flock(old(kernel.table), fd, Some(mode))
    {
      this.kernel, this.fd, this.inode, this.held := kernel, fd, kernel.table[fd].inode, true;
      new;
      kernel.table := kernel.table[fd := kernel.table[fd].(mode := Some(mode))];
    }

    method Unlock()
      requires fd in kernel.table
      modifies this`held, kernel
      ensures kernel.table == Unlocked(old(kernel.table), old(Value())) && !held
    {
      if held {
        kernel.table := kernel.table[fd := kernel.table[fd].(mode := None)];
        held := false;
      }
    }

    /** `drop` after any use: a lock that was handed off is not touched. */
    method Drop()
      requires fd in kernel.table
      modifies kernel
      ensures kernel.table == Unlocked(old(kernel.table), Value())
      ensures !held ==> kernel.table == old(kernel.table)
    {
      if held {
        kernel.table := kernel.table[fd := kernel.table[fd].(mode := None)];
      }
    }
  }

  /** `acquire`: a guard if and only if flock was granted; a refusal changes nothing. */
  method Acquire(kernel: OpenDescriptions, fd: nat, mode: Mode) returns (r: Option<StateLock>)
    requires fd in kernel.table
    modifies kernel
    ensures r.Some? <==> Flock(old(kernel.table), fd, Some(mode)).Some?
    ensures r.Some? ==> && fresh(r.value) && r.value.kernel == kernel
                        && r.value.Value() == Lock(fd, old(kernel.table[fd].inode), true)
                        && Some(kernel.table) == Flock(old(kernel.table), fd, Some(mode))
    ensures r.None? ==> kernel.table == old(kernel.table)
  {
    if Flock(kernel.table, fd, Some(mode)).None? { return None; }
    var guard := new StateLock(kernel, fd, mode);
    return Some(guard);
  }

  // ---------- Processes ----------

  datatype Kind = ForInstance | ForMaintenance | ForDiagnostic

  datatype Stage = MaintenanceOpen | MaintenanceLocked | PendingChecked | InstanceOpen | Guarding | Releasing

  /** One acquisition and the guard it leads to. */
  datatype Client = Client(kind: Kind, dir: nat, stage: Stage, maintenance: Lock, instance: Option<Lock>)

  /** `root` is the directory inode now at the state path; `names` are its lock files. */
  datatype World = World(
    kernel: Kernel, root: nat, names: map<(nat, LockFile), nat>, pending: set<nat>, clients: map<nat, Client>)

  datatype Step =
    | OpenMaintenance(c: nat, kind: Kind, fd: nat, inode: nat)
    | LockMaintenance(c: nat)
    | CheckPending(c: nat)
    | OpenInstance(c: nat, fd: nat, inode: nat)
    | LockInstance(c: nat)
    | UnlockInstance(c: nat)        // release or drop: the instance lock goes first
    | UnlockMaintenance(c: nat)
    | Leave(c: nat)
    | Crash(c: nat, closed: bool)   // closed: no alias kept the descriptions open
    | AliasFlock(fd: nat, mode: Option<Mode>)
    | CreateMarker(c: nat)
    | RemoveMarker(c: nat)
    | RebindRoot(dir: nat)
    | Bind(dir: nat, file: LockFile, inode: nat)
    | Unbind(dir: nat, file: LockFile)

  function ModeOf(kind: Kind): Mode { if kind.ForMaintenance? then Exclusive else Shared }

  function LockAt(w: World, c: nat, file: LockFile): Option<Lock> {
    if c !in w.clients then None
    else if file.MaintenanceFile? then Some(w.clients[c].maintenance)
    else w.clients[c].instance
  }

  function ModeAt(w: World, c: nat, file: LockFile): Mode
    requires c in w.clients
  {
    if file.InstanceFile? then Exclusive else ModeOf(w.clients[c].kind)
  }

  predicate HeldBySomeone(w: World, fd: nat) {
    exists c | c in w.clients ::
      || (w.clients[c].maintenance.fd == fd && w.clients[c].maintenance.held)
      || (w.clients[c].instance.Some? && w.clients[c].instance.value.fd == fd && w.clients[c].instance.value.held)
  }

  /** Opening finds the bound inode, or creates and binds a new one. */
  predicate Opens(w: World, dir: nat, file: LockFile, inode: nat) {
    w.root == dir && ((dir, file) in w.names ==> w.names[(dir, file)] == inode)
  }

  predicate Enabled(w: World, step: Step) {
    match step
    case OpenMaintenance(c, kind, fd, inode) =>
      c !in w.clients && fd !in w.kernel && Opens(w, w.root, MaintenanceFile, inode)
    case LockMaintenance(c) =>
      && c in w.clients && w.clients[c].stage.MaintenanceOpen? && w.clients[c].maintenance.fd in w.kernel
      && Flock(w.kernel, w.clients[c].maintenance.fd, Some(ModeOf(w.clients[c].kind))).Some?
    case CheckPending(c) =>
      && c in w.clients && w.clients[c].stage.MaintenanceLocked? && !w.clients[c].kind.ForMaintenance?
      && w.root == w.clients[c].dir && w.clients[c].dir !in w.pending
    case OpenInstance(c, fd, inode) =>
      && c in w.clients && w.clients[c].stage.PendingChecked? && w.clients[c].kind.ForInstance?
      && w.clients[c].instance.None? && fd !in w.kernel
      && Opens(w, w.clients[c].dir, InstanceFile, inode)
    case LockInstance(c) =>
      && c in w.clients && w.clients[c].stage.InstanceOpen? && w.clients[c].instance.Some?
      && w.clients[c].instance.value.fd in w.kernel
      && Flock(w.kernel, w.clients[c].instance.value.fd, Some(Exclusive)).Some?
    case UnlockInstance(c) => c in w.clients && w.clients[c].instance.Some?
    case UnlockMaintenance(c) => c in w.clients && (w.clients[c].instance.Some? ==> !w.clients[c].instance.value.held)
    case Leave(c) =>
      && c in w.clients && !w.clients[c].maintenance.held
      && (w.clients[c].instance.Some? ==> !w.clients[c].instance.value.held)
    case Crash(c, _) => c in w.clients
    case AliasFlock(fd, mode) => fd in w.kernel && !HeldBySomeone(w, fd) && Flock(w.kernel, fd, mode).Some?
    case CreateMarker(c) =>
      MaintenanceGuard(w, c)
    case RemoveMarker(c) =>
      MaintenanceGuard(w, c)
    case _ => true
  }

  function Opened(w: World, dir: nat, file: LockFile, fd: nat, inode: nat): World {
    w.(kernel := w.kernel[fd := Description(inode, None)], names := w.names[(dir, file) := inode])
  }

  function WithClient(w: World, c: nat, client: Client): World { w.(clients := w.clients[c := client]) }

  function Next(w: World, step: Step): World
    requires Enabled(w, step)
  {
    match step
    case OpenMaintenance(c, kind, fd, inode) =>
      WithClient(Opened(w, w.root, MaintenanceFile, fd, inode),
                 c, Client(kind, w.root, MaintenanceOpen, Lock(fd, inode, false), None))
    case LockMaintenance(c) =>
      var client := w.clients[c];
      WithClient(w.(kernel := Flock(w.kernel, client.maintenance.fd, Some(ModeOf(client.kind))).value), c,
                 client.(stage := if client.kind.ForMaintenance? then Guarding else MaintenanceLocked,
                         maintenance := client.maintenance.(held := true)))
    case CheckPending(c) =>
      WithClient(w, c, w.clients[c].(stage := if w.clients[c].kind.ForInstance? then PendingChecked else Guarding))
    case OpenInstance(c, fd, inode) =>
      var client := w.clients[c];
      WithClient(Opened(w, client.dir, InstanceFile, fd, inode),
                 c, client.(stage := InstanceOpen, instance := Some(Lock(fd, inode, false))))
    case LockInstance(c) =>
      var client := w.clients[c];
      WithClient(w.(kernel := Flock(w.kernel, client.instance.value.fd, Some(Exclusive)).value), c,
                 client.(stage := Guarding, instance := Some(client.instance.value.(held := true))))
    case UnlockInstance(c) =>
      var client := w.clients[c];
      WithClient(w.(kernel := Unlocked(w.kernel, client.instance.value)), c,
                 client.(stage := Releasing, instance := Some(client.instance.value.(held := false))))
    case UnlockMaintenance(c) =>
      var client := w.clients[c];
      WithClient(w.(kernel := Unlocked(w.kernel, client.maintenance)), c,
                 client.(stage := Releasing, maintenance := client.maintenance.(held := false)))
    case Leave(c) => w.(clients := w.clients - {c})
    case Crash(c, closed) =>
      var client := w.clients[c];
      var k := if closed then Unlocked(w.kernel, client.maintenance) else w.kernel;
      w.(kernel := if closed && client.instance.Some? then Unlocked(k, client.instance.value) else k,
         clients := w.clients - {c})
    case AliasFlock(fd, mode) => w.(kernel := Flock(w.kernel, fd, mode).value)
    case CreateMarker(c) => w.(pending := w.pending + {w.clients[c].dir})
    case RemoveMarker(c) => w.(pending := w.pending - {w.clients[c].dir})
    case RebindRoot(dir) => w.(root := dir)
    case Bind(dir, file, inode) => w.(names := w.names[(dir, file) := inode])
    case Unbind(dir, file) => w.(names := w.names - {(dir, file)})
  }

  // ---------- Guards ----------

  /** `InstanceLock` before its release. */
  predicate InstanceGuard(w: World, c: nat) {
    && c in w.clients && w.clients[c].kind.ForInstance? && w.clients[c].stage.Guarding?
    && w.clients[c].maintenance.held && w.clients[c].instance.Some? && w.clients[c].instance.value.held
  }

  /** `MaintenanceLock` from `try_maintenance_lock`, before its release. */
  predicate MaintenanceGuard(w: World, c: nat) {
    && c in w.clients && w.clients[c].kind.ForMaintenance? && w.clients[c].stage.Guarding?
    && w.clients[c].maintenance.held
  }

  /** `MaintenanceLock` from `try_shared_maintenance_lock`, before its release. */
  predicate DiagnosticGuard(w: World, c: nat) {
    c in w.clients && w.clients[c].kind.ForDiagnostic? && w.clients[c].stage.Guarding? && w.clients[c].maintenance.held
  }

  predicate Bound(w: World, dir: nat, file: LockFile, l: Lock) {
    (dir, file) in w.names && w.names[(dir, file)] == l.inode
  }

  /** `verify_identity` of a guard: the path still leads to the same directory and lock files. */
  predicate Verifies(w: World, c: nat) {
    && c in w.clients && w.root == w.clients[c].dir
    && Bound(w, w.clients[c].dir, MaintenanceFile, w.clients[c].maintenance)
    && (w.clients[c].instance.Some? ==> Bound(w, w.clients[c].dir, InstanceFile, w.clients[c].instance.value))
  }

  // ---------- Invariant ----------

  ghost predicate KernelSane(k: Kernel) {
    forall f, g :: f in k && g in k && f != g && k[f].inode == k[g].inode ==> Compatible(k[f].mode, k[g].mode)
  }

  ghost predicate LocksBacked(w: World) {
    forall c, file :: LockAt(w, c, file).Some? ==>
      var l := LockAt(w, c, file).value;
      l.fd in w.kernel && w.kernel[l.fd].inode == l.inode
      && (l.held ==> w.kernel[l.fd].mode == Some(ModeAt(w, c, file)))
  }

  ghost predicate LocksApart(w: World) {
    forall c, file, d, other :: LockAt(w, c, file).Some? && LockAt(w, d, other).Some? && (c != d || file != other) ==>
      LockAt(w, c, file).value.fd != LockAt(w, d, other).value.fd
  }

  ghost predicate Inv(w: World) { KernelSane(w.kernel) && LocksBacked(w) && LocksApart(w) }

  lemma FlockSane(k: Kernel, fd: nat, mode: Option<Mode>)
    requires KernelSane(k) && fd in k && Flock(k, fd, mode).Some?
    ensures KernelSane(Flock(k, fd, mode).value)
  {
  }

  lemma UnlockSane(k: Kernel, l: Lock)
    requires KernelSane(k)
    ensures KernelSane(Unlocked(k, l))
  {
  }

  lemma StepKeepsSane(w: World, step: Step)
    requires Inv(w) && Enabled(w, step)
    ensures KernelSane(Next(w, step).kernel)
  {
    hide Flock, Unlocked, LocksApart, LocksBacked, KernelSane;
    match step
    case OpenMaintenance(c, kind, fd, inode) => OpenSane(w.kernel, fd, inode);
    case LockMaintenance(c) => FlockSane(w.kernel, w.clients[c].maintenance.fd, Some(ModeOf(w.clients[c].kind)));
    case OpenInstance(c, fd, inode) => OpenSane(w.kernel, fd, inode);
    case LockInstance(c) => FlockSane(w.kernel, w.clients[c].instance.value.fd, Some(Exclusive));
    case UnlockInstance(c) => UnlockSane(w.kernel, w.clients[c].instance.value);
    case UnlockMaintenance(c) => UnlockSane(w.kernel, w.clients[c].maintenance);
    case Crash(c, closed) =>
      UnlockSane(w.kernel, w.clients[c].maintenance);
      if w.clients[c].instance.Some? {
        UnlockSane(Unlocked(w.kernel, w.clients[c].maintenance), w.clients[c].instance.value);
      }
    case AliasFlock(fd, mode) => FlockSane(w.kernel, fd, mode);
    case _ =>
  }

  lemma OpenSane(k: Kernel, fd: nat, inode: nat)
    requires KernelSane(k)
    ensures KernelSane(k[fd := Description(inode, None)])
  {
  }

  lemma StepKeepsApart(w: World, step: Step)
    requires Inv(w) && Enabled(w, step)
    ensures LocksApart(Next(w, step))
  {
    hide Flock, Unlocked, KernelSane, HeldBySomeone, Opens;
    var after := Next(w, step);
    forall c, file, d, other |
      LockAt(after, c, file).Some? && LockAt(after, d, other).Some? && (c != d || file != other)
      ensures LockAt(after, c, file).value.fd != LockAt(after, d, other).value.fd
    {
      assert LockAt(w, c, file).Some? ==> LockAt(w, c, file).value.fd in w.kernel;
      assert LockAt(w, d, other).Some? ==> LockAt(w, d, other).value.fd in w.kernel;
    }
  }

  /** The lock stays backed by its description through every step. */
  lemma StepKeepsBacked(w: World, step: Step, c: nat, file: LockFile)
    requires Inv(w) && Enabled(w, step) && LockAt(Next(w, step), c, file).Some?
    ensures var after := Next(w, step);
            var l := LockAt(after, c, file).value;
            l.fd in after.kernel && after.kernel[l.fd].inode == l.inode
            && (l.held ==> after.kernel[l.fd].mode == Some(ModeAt(after, c, file)))
  {
    hide KernelSane, Opens;
    var l := LockAt(Next(w, step), c, file).value;
    if LockAt(w, c, file).Some? {
      assert LockAt(w, c, file).value.fd == l.fd && l.fd in w.kernel;
      forall d, other | LockAt(w, d, other).Some? && (d != c || other != file)
        ensures LockAt(w, d, other).value.fd != l.fd
      {
      }
      if step.UnlockInstance? || step.UnlockMaintenance? || step.LockMaintenance? || step.LockInstance? || step.Crash? {
        assert LockAt(w, step.c, MaintenanceFile) == Some(w.clients[step.c].maintenance);
        assert LockAt(w, step.c, InstanceFile) == w.clients[step.c].instance;
      }
    }
  }

  lemma StepKeeps(w: World, step: Step)
    requires Inv(w) && Enabled(w, step)
    ensures Inv(Next(w, step))
  {
    hide Next, Enabled, KernelSane, LocksApart;
    StepKeepsSane(w, step);
    StepKeepsApart(w, step);
    var after := Next(w, step);
    forall c, file | LockAt(after, c, file).Some?
      ensures var l := LockAt(after, c, file).value;
              l.fd in after.kernel && after.kernel[l.fd].inode == l.inode
              && (l.held ==> after.kernel[l.fd].mode == Some(ModeAt(after, c, file)))
    {
      StepKeepsBacked(w, step, c, file);
    }
  }

  // ---------- Exclusion ----------

  lemma HeldPairExcludes(w: World, c: nat, file: LockFile, d: nat, other: LockFile)
    requires Inv(w) && (c != d || file != other)
    requires LockAt(w, c, file).Some? && LockAt(w, c, file).value.held && ModeAt(w, c, file).Exclusive?
    requires LockAt(w, d, other).Some? && LockAt(w, d, other).value.held
    ensures LockAt(w, c, file).value.inode != LockAt(w, d, other).value.inode
  {
    var l, m := LockAt(w, c, file).value, LockAt(w, d, other).value;
    assert l.fd in w.kernel && m.fd in w.kernel && l.fd != m.fd;
  }

  ghost predicate Initial(w: World) { w.clients == map[] && KernelSane(w.kernel) }

  ghost predicate IsRun(run: seq<World>, steps: seq<Step>) {
    && |run| == |steps| + 1 && Initial(run[0])
    && forall i {:trigger steps[i]} :: 0 <= i < |steps| ==>
         Enabled(run[i], steps[i]) && run[i + 1] == Next(run[i], steps[i])
  }

  lemma {:induction false} InvHolds(run: seq<World>, steps: seq<Step>, i: nat)
    requires IsRun(run, steps) && i < |run|
    ensures Inv(run[i])
  {
    hide Next, Enabled;
    if i > 0 {
      InvHolds(run, steps, i - 1);
      var step := steps[i - 1];
      StepKeeps(run[i - 1], step);
    }
  }

  /** Two instance guards never both pass `verify_identity`, and neither does an
      exclusive maintenance guard beside an instance guard, a diagnostic guard or
      another one, however the environment rebinds the path and the lock names. */
  lemma GuardsExclude(run: seq<World>, steps: seq<Step>, i: nat, c: nat, d: nat)
    requires IsRun(run, steps) && i < |run| && c != d
    requires Verifies(run[i], c) && Verifies(run[i], d)
    ensures !(InstanceGuard(run[i], c) && InstanceGuard(run[i], d))
    ensures !(MaintenanceGuard(run[i], c) && InstanceGuard(run[i], d))
    ensures !(MaintenanceGuard(run[i], c) && MaintenanceGuard(run[i], d))
    ensures !(MaintenanceGuard(run[i], c) && DiagnosticGuard(run[i], d))
  {
    hide Next, Enabled, Inv;
    InvHolds(run, steps, i);
    var w := run[i];
    if InstanceGuard(w, c) && InstanceGuard(w, d) {
      HeldPairExcludes(w, c, InstanceFile, d, InstanceFile);
    }
    if MaintenanceGuard(w, c) && (InstanceGuard(w, d) || MaintenanceGuard(w, d) || DiagnosticGuard(w, d)) {
      HeldPairExcludes(w, c, MaintenanceFile, d, MaintenanceFile);
    }
  }

  // ---------- Handoff ----------

  /** The description is open, and whoever locked it has let it go for good. */
  ghost predicate HandedOff(w: World, fd: nat) {
    && fd in w.kernel
    && forall c, file :: LockAt(w, c, file).Some? && LockAt(w, c, file).value.fd == fd ==>
         !LockAt(w, c, file).value.held && w.clients[c].stage.Releasing?
  }

  /** Releasing or dropping a guard unlocks each of its locks in such a step. */
  predicate Unlocks(w: World, step: Step, fd: nat) {
    && (step.UnlockInstance? || step.UnlockMaintenance?) && step.c in w.clients
    && var l := LockAt(w, step.c, if step.UnlockInstance? then InstanceFile else MaintenanceFile);
       l.Some? && l.value.fd == fd
  }

  lemma UnlockHandsOff(w: World, step: Step, fd: nat)
    requires Inv(w) && Enabled(w, step) && Unlocks(w, step, fd)
    ensures HandedOff(Next(w, step), fd)
    ensures Next(w, step).kernel[fd].mode == if HeldIn(w, step) then None else w.kernel[fd].mode
  {
    hide KernelSane;
    var file := if step.UnlockInstance? then InstanceFile else MaintenanceFile;
    assert LockAt(w, step.c, file).Some? && LockAt(w, step.c, file).value.fd in w.kernel;
    var after := Next(w, step);
    forall c, other | LockAt(after, c, other).Some? && LockAt(after, c, other).value.fd == fd
      ensures !LockAt(after, c, other).value.held && after.clients[c].stage.Releasing?
    {
      assert LockAt(w, c, other).Some? && LockAt(w, c, other).value.fd == fd;
      assert LockAt(w, c, other).value.fd == LockAt(w, step.c, file).value.fd;
      assert c == step.c && other == file;
    }
  }

  /** Whether the lock that the step releases was still held. */
  predicate HeldIn(w: World, step: Step)
    requires (step.UnlockInstance? || step.UnlockMaintenance?) && step.c in w.clients
    requires step.UnlockInstance? ==> w.clients[step.c].instance.Some?
  {
    if step.UnlockInstance? then w.clients[step.c].instance.value.held else w.clients[step.c].maintenance.held
  }

  lemma HandOffKept(w: World, step: Step, fd: nat)
    requires Inv(w) && Enabled(w, step) && HandedOff(w, fd)
    ensures HandedOff(Next(w, step), fd)
    ensures !(step.AliasFlock? && step.fd == fd) ==> Next(w, step).kernel[fd] == w.kernel[fd]
  {
    hide KernelSane, LocksApart, Compatible, Opens, HeldBySomeone;
    if step.UnlockInstance? || step.UnlockMaintenance? || step.LockMaintenance? || step.LockInstance? || step.Crash? {
      assert LockAt(w, step.c, MaintenanceFile) == Some(w.clients[step.c].maintenance);
      assert LockAt(w, step.c, InstanceFile) == w.clients[step.c].instance;
    }
    forall c, file | LockAt(Next(w, step), c, file).Some? && LockAt(Next(w, step), c, file).value.fd == fd
      ensures !LockAt(Next(w, step), c, file).value.held && Next(w, step).clients[c].stage.Releasing?
    {
      assert LockAt(w, c, file).Some? ==> LockAt(w, c, file).value.fd in w.kernel;
    }
  }

  lemma {:induction false} StaysHandedOff(run: seq<World>, steps: seq<Step>, i: nat, j: nat, fd: nat)
    requires IsRun(run, steps) && i <= j < |run| && HandedOff(run[i], fd)
    ensures HandedOff(run[j], fd)
  {
    hide Next, Enabled, HandedOff;
    if i < j {
      StaysHandedOff(run, steps, i, j - 1, fd);
      InvHolds(run, steps, j - 1);
      var step := steps[j - 1];
      HandOffKept(run[j - 1], step, fd);
    }
  }

  lemma {:induction false} AliasLockKept(run: seq<World>, steps: seq<Step>, k: nat, j: nat, fd: nat)
    requires IsRun(run, steps) && k <= j < |run| && HandedOff(run[k], fd)
    requires forall m :: k <= m < j ==> !(steps[m].AliasFlock? && steps[m].fd == fd)
    ensures HandedOff(run[j], fd) && fd in run[k].kernel && fd in run[j].kernel
    ensures run[j].kernel[fd] == run[k].kernel[fd]
  {
    hide Next, Enabled;
    if k < j {
      AliasLockKept(run, steps, k, j - 1, fd);
      InvHolds(run, steps, j - 1);
      var step := steps[j - 1];
      HandOffKept(run[j - 1], step, fd);
    }
  }

  /** At step i a guard unlocks the description; at step k an alias locks it again.
      Whatever comes then, drops of the guard, crashes and other processes included,
      the lock stays as the alias set it until an alias changes it. */
  lemma ReleasedIsLeftAlone(run: seq<World>, steps: seq<Step>, i: nat, k: nat, j: nat, fd: nat)
    requires IsRun(run, steps) && i < k < j < |run| && Unlocks(run[i], steps[i], fd)
    requires steps[k].AliasFlock? && steps[k].fd == fd
    requires forall m :: k < m < j ==> !(steps[m].AliasFlock? && steps[m].fd == fd)
    ensures fd in run[j].kernel && run[j].kernel[fd].mode == steps[k].mode
  {
    hide HandedOff, Unlocks, HeldBySomeone, Compatible;
    InvHolds(run, steps, i);
    var release, locking := steps[i], steps[k];
    UnlockHandsOff(run[i], release, fd);
    StaysHandedOff(run, steps, i + 1, k, fd);
    InvHolds(run, steps, k);
    HandOffKept(run[k], locking, fd);
    AliasLockKept(run, steps, k + 1, j, fd);
  }

  // ---------- The pending marker ----------

  /** The environment leaves bound names and the path alone. */
  predicate NamesStable(w: World, step: Step) {
    && !step.RebindRoot? && !step.Unbind?
    && (step.Bind? ==> (step.dir, step.file) !in w.names)
  }

  predicate PassedGate(client: Client) {
    && !client.kind.ForMaintenance? && client.maintenance.held
    && (client.stage.PendingChecked? || client.stage.InstanceOpen? || client.stage.Guarding?)
  }

  ghost predicate MarkerInv(w: World) {
    && (forall c :: c in w.clients ==> Bound(w, w.clients[c].dir, MaintenanceFile, w.clients[c].maintenance))
    && (forall c :: c in w.clients && PassedGate(w.clients[c]) ==> w.clients[c].dir !in w.pending)
  }

  lemma BindingsKept(w: World, step: Step)
    requires MarkerInv(w) && Enabled(w, step) && NamesStable(w, step)
    ensures forall c :: c in Next(w, step).clients ==>
              Bound(Next(w, step), Next(w, step).clients[c].dir, MaintenanceFile, Next(w, step).clients[c].maintenance)
  {
    hide Flock, Unlocked, HeldBySomeone;
  }

  lemma MarkerKept(w: World, step: Step)
    requires Inv(w) && MarkerInv(w) && Enabled(w, step) && NamesStable(w, step)
    ensures MarkerInv(Next(w, step))
  {
    hide Flock, Unlocked, HeldBySomeone, Inv;
    BindingsKept(w, step);
    var after := Next(w, step);
    forall c | c in after.clients && PassedGate(after.clients[c]) ensures after.clients[c].dir !in after.pending {
      if step.CreateMarker? && w.clients[c].dir == w.clients[step.c].dir {
        assert Bound(w, w.clients[c].dir, MaintenanceFile, w.clients[c].maintenance);
        assert Bound(w, w.clients[c].dir, MaintenanceFile, w.clients[step.c].maintenance);
        HeldPairExcludes(w, step.c, MaintenanceFile, c, MaintenanceFile);
      }
    }
  }

  lemma {:induction false} MarkerInvHolds(run: seq<World>, steps: seq<Step>, i: nat)
    requires IsRun(run, steps) && i < |run|
    requires forall j {:trigger steps[j]} :: 0 <= j < |steps| ==> NamesStable(run[j], steps[j])
    ensures MarkerInv(run[i])
  {
    hide Next, Enabled, NamesStable, Inv;
    if i > 0 {
      MarkerInvHolds(run, steps, i - 1);
      InvHolds(run, steps, i - 1);
      var step := steps[i - 1];
      MarkerKept(run[i - 1], step);
    }
  }

  /** With stable names and markers created only under the exclusive guard, the
      pending marker is absent for the whole life of every instance guard. */
  lemma NoMarkerUnderInstanceGuard(run: seq<World>, steps: seq<Step>, i: nat, c: nat)
    requires IsRun(run, steps) && i < |run| && InstanceGuard(run[i], c)
    requires forall j {:trigger steps[j]} :: 0 <= j < |steps| ==> NamesStable(run[j], steps[j])
    ensures run[i].clients[c].dir !in run[i].pending
  {
    hide Next, Enabled, NamesStable;
    MarkerInvHolds(run, steps, i);
  }
}
