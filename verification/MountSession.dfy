/**
 * Serialised enters and leaves of one session against the kernel: whole disk
 * and partitions exclude each other, EBUSY is retried while it can be
 * transient, and ANYFS_MOUNT_REPLACE first unmounts what is in the way.
 */
module MountSession {
  import opened MountNames
  import opened MountProtocol

  /**
   * The kernel's mounts of this disk. `answers` is what it would like to say
   * to call number `tick`; it never lets the whole disk and a partition be
   * mounted together, whatever error it reports for that.
   */
  class Kernel {
    var whole: bool
    var parts: set<nat>
    var attempts: nat    // mount calls
    var refused: nat     // unmount calls that failed
    var tick: nat
    const answers: nat -> int

    ghost predicate Valid()
      reads this
    {
      !(whole && parts != {}) && 0 !in parts
    }

    predicate Refuses(part: nat)
      reads this
    {
      whole || (if part == 0 then parts != {} else part in parts)
    }

    predicate Has(part: nat)
      reads this
    {
      if part == 0 then whole else part in parts
    }

    constructor (a: nat -> int)
      ensures Valid() && !whole && parts == {} && attempts == 0 && refused == 0
    {
      whole, parts, attempts, refused, tick, answers := false, {}, 0, 0, 0, a;
    }

    /** anyfs_mount / anyfs_mount_blkdev */
    method Mount(part: nat) returns (rc: int)
      requires Valid()
      modifies this
      ensures Valid() && rc <= 0 && attempts == old(attempts) + 1 && refused == old(refused)
      ensures old(Refuses(part)) ==> rc < 0
      ensures rc == 0 ==> whole == (old(whole) || part == 0)
      ensures rc == 0 ==> parts == old(parts) + (if part == 0 then {} else {part})
      ensures rc < 0 ==> whole == old(whole) && parts == old(parts)
    {
      rc := answers(tick);
      tick, attempts := tick + 1, attempts + 1;
      if rc > 0 { rc := -rc; }
      if Refuses(part) && rc == 0 { rc := -EBUSY; }
      if rc == 0 {
        if part == 0 { whole := true; } else { parts := parts + {part}; }
      }
    }

    /** anyfs_umount: fails if the mount is busy or absent. */
    method Umount(part: nat) returns (rc: int)
      requires Valid()
      modifies this
      ensures Valid() && rc <= 0 && attempts == old(attempts)
      ensures refused == old(refused) + (if rc == 0 then 0 else 1)
      ensures !old(Has(part)) ==> rc < 0
      ensures rc == 0 ==> whole == (old(whole) && part != 0)
      ensures rc == 0 ==> parts == old(parts) - (if part == 0 then {} else {part})
      ensures rc < 0 ==> whole == old(whole) && parts == old(parts)
    {
      rc := answers(tick);
      tick := tick + 1;
      if rc > 0 { rc := -rc; }
      if !Has(part) && rc == 0 { rc := -22; }
      if rc != 0 { refused := refused + 1; }
      if rc == 0 {
        if part == 0 { whole := false; } else { parts := parts - {part}; }
      }
    }
  }

  /** Top-level slots have distinct partition numbers from 1 up. */
  predicate Numbered(index: seq<nat>) {
    && (forall i | 0 <= i < |index| :: index[i] > 0)
    && (forall i, j | 0 <= i < j < |index| :: index[i] != index[j])
  }

  class Session {
    const kernel: Kernel
    const disk: nat
    const hasWholeDev: bool
    const index: seq<nat>
    const isFs: seq<bool>
    var whole: PartState
    var st: seq<PartState>

    /** MOUNTED records are exactly the kernel's mounts; a mount in flight is in neither. */
    ghost predicate Agrees()
      reads this, kernel
    {
      && kernel.Valid() && Numbered(index) && |isFs| == |index| == |st|
      && (whole.Mounted? <==> kernel.whole) && !whole.Failed? && (hasWholeDev || whole.New?)
      && (forall i | 0 <= i < |st| :: st[i].Mounted? <==> index[i] in kernel.parts)
      && (forall i | 0 <= i < |st| :: st[i].Mounted? ==> isFs[i])
      && (forall p | p in kernel.parts :: p in index)
    }

    /** No mount is in flight. */
    ghost predicate AtRest()
      reads this
    {
      !whole.Mounting? && forall i | 0 <= i < |st| :: !st[i].Mounting?
    }

    /** conflict_mounted_locked */
    predicate Conflicts(part: nat)
      requires |isFs| == |st|
      reads this
    {
      if part != 0 then !whole.New?
      else exists i | 0 <= i < |st| :: isFs[i] && (st[i].Mounting? || st[i].Mounted?)
    }

    /** Some other mount that excludes `part` is recorded. */
    predicate Blocked(part: nat)
      reads this
    {
      if part != 0 then whole.Mounted? else exists i | 0 <= i < |st| :: st[i].Mounted?
    }

    /** Entering `part` gets as far as a mount or an existing one. */
    predicate Enterable(part: nat)
      requires |isFs| == |index| == |st|
      reads this
    {
      if part == 0 then hasWholeDev
      else exists i | 0 <= i < |st| :: index[i] == part && isFs[i] && !st[i].Failed?
    }

    constructor (k: Kernel, d: nat, dev: bool, numbers: seq<nat>, fs: seq<bool>)
      requires k.Valid() && !k.whole && k.parts == {} && Numbered(numbers) && |fs| == |numbers|
      ensures Agrees() && AtRest() && kernel == k && index == numbers && isFs == fs
    {
      kernel, disk, hasWholeDev, index, isFs := k, d, dev, numbers, fs;
      whole, st := New, seq(|numbers|, _ => New);
    }

    /** find_slot_by_pair_locked among the top-level slots. */
    method Find(part: nat) returns (sid: int)
      ensures sid == -1 ==> part !in index
      ensures sid != -1 ==> 0 <= sid < |index| && index[sid] == part
    {
      sid := 0;
      while sid < |index|
        invariant 0 <= sid <= |index| && part !in index[..sid]
      {
        if index[sid] == part { return; }
        sid := sid + 1;
      }
      sid := -1;
    }

    /** anyfs_session_leave: what it unmounts becomes NEW, and nothing else changes. */
    method Leave(part: nat) returns (rc: int)
      requires Agrees()
      modifies this`whole, this`st, kernel
      ensures Agrees() && kernel.attempts == old(kernel.attempts)
      ensures old(kernel.Has(part)) ==> kernel.refused == old(kernel.refused) + (if rc == 0 then 0 else 1)
      ensures rc == 0 ==> old(kernel.Has(part)) && !kernel.Has(part)
      ensures rc != 0 ==> rc < 0 && whole == old(whole) && st == old(st)
      ensures part != 0 && !old(kernel.Has(part)) ==> rc == -1
      ensures part != 0 ==> whole == old(whole)
      ensures forall i | 0 <= i < |st| :: st[i] == if rc == 0 && index[i] == part then New else old(st)[i]
      ensures part == 0 && rc == 0 ==> whole.New?
    {
      if part == 0 {
        rc := kernel.Umount(0);
        if rc == 0 { whole := New; }
        return;
      }
      var sid := Find(part);
      if sid == -1 || !st[sid].Mounted? || !isFs[sid] { return -1; }
      rc := kernel.Umount(part);
      if rc == 0 { st := st[sid := New]; }
    }

    /**
     * release_conflicts: unmounts what excludes `part`. Something still
     * excludes it exactly if the kernel refused an unmount.
     */
    method ReleaseConflicts(part: nat)
      requires Agrees()
      modifies this`whole, this`st, kernel
      ensures Agrees() && kernel.attempts == old(kernel.attempts)
      ensures Blocked(part) <==> kernel.refused != old(kernel.refused)
      ensures part == 0 ==> whole == old(whole)
      ensures part != 0 ==> st == old(st) && (whole == old(whole) || (old(whole).Mounted? && whole.New?))
      ensures forall i | 0 <= i < |st| :: st[i] == old(st)[i] || (old(st)[i].Mounted? && st[i].New?)
    {
      if part != 0 {
        if whole.Mounted? { var _ := Leave(0); }
        return;
      }
      var i := 0;
      while i < |st|
        invariant 0 <= i <= |st| && Agrees() && whole == old(whole) && |st| == old(|st|)
        invariant kernel.attempts == old(kernel.attempts) && kernel.refused >= old(kernel.refused)
        invariant (exists j | 0 <= j < i :: st[j].Mounted?) <==> kernel.refused != old(kernel.refused)
        invariant forall j | 0 <= j < |st| :: st[j] == old(st)[j] || (old(st)[j].Mounted? && st[j].New?)
      {
        if isFs[i] && st[i].Mounted? { var _ := Leave(index[i]); }
        i := i + 1;
      }
    }

    /**
     * The mount loop: retry EBUSY every 10 ms for at most 500 ms, and not at
     * all if some other record of the session is in the way.
     */
    method MountRetrying(part: nat) returns (rc: int)
      requires Agrees()
      modifies kernel
      ensures kernel.Valid() && rc <= 0 && kernel.refused == old(kernel.refused)
      ensures rc == 0 ==> kernel.whole == (old(kernel.whole) || part == 0)
      ensures rc == 0 ==> kernel.parts == old(kernel.parts) + (if part == 0 then {} else {part})
      ensures rc < 0 ==> kernel.whole == old(kernel.whole) && kernel.parts == old(kernel.parts)
      ensures old(kernel.Refuses(part)) ==> rc < 0
      ensures old(kernel.attempts) < kernel.attempts <= old(kernel.attempts) + 51
      ensures Conflicts(part) ==> kernel.attempts == old(kernel.attempts) + 1
      ensures rc == -EBUSY ==> Conflicts(part) || kernel.attempts == old(kernel.attempts) + 51
    {
      var waited := 0;
      rc := kernel.Mount(part);
      while rc == -EBUSY && waited < BUSY_RETRY_TOTAL_MS && !Conflicts(part)
        invariant rc <= 0 && kernel.Valid() && 0 <= waited <= 500 && waited % 10 == 0
        invariant kernel.attempts == old(kernel.attempts) + 1 + waited / 10 && kernel.refused == old(kernel.refused)
        invariant rc < 0 ==> kernel.whole == old(kernel.whole) && kernel.parts == old(kernel.parts)
        invariant rc == 0 ==> kernel.whole == (old(kernel.whole) || part == 0)
        invariant rc == 0 ==> kernel.parts == old(kernel.parts) + (if part == 0 then {} else {part})
        invariant old(kernel.Refuses(part)) ==> rc < 0
        invariant waited > 0 ==> !Conflicts(part)
        decreases 500 - waited
      {
        waited := waited + BUSY_RETRY_STEP_MS;
        rc := kernel.Mount(part);
      }
    }

    /** The part-0 branch of anyfs_session_enter. */
    method EnterWhole(replace: bool) returns (rc: int, path: string)
      requires Agrees() && AtRest()
      modifies this`whole, this`st, kernel
      ensures Agrees() && AtRest()
      ensures !hasWholeDev ==> rc == -4
      ensures rc == 0 <==> whole.Mounted?
      ensures path == if rc == 0 then MountedPath(WholeName(disk)) else ""
      ensures kernel.attempts <= old(kernel.attempts) + 51
      ensures old(Conflicts(0)) && !replace ==> kernel.attempts <= old(kernel.attempts) + 1
      ensures replace && hasWholeDev ==> (Blocked(0) <==> kernel.refused != old(kernel.refused))
      ensures forall i | 0 <= i < |st| :: st[i] == old(st)[i] || (replace && old(st)[i].Mounted? && st[i].New?)
    {
      path := "";
      if !hasWholeDev { return -4, ""; }
      if whole.Mounted? { return 0, MountedPath(WholeName(disk)); }
      whole := Mounting;
      if replace { ReleaseConflicts(0); }
      rc := MountRetrying(0);
      whole := if rc == 0 then Mounted else New;
      if rc == 0 { path := MountedPath(WholeName(disk)); }
    }

    /** enter_fs_slot for a top-level slot. */
    method EnterFsSlot(sid: nat, replace: bool) returns (rc: int, path: string)
      requires Agrees() && AtRest() && sid < |st| && isFs[sid]
      modifies this`whole, this`st, kernel
      ensures Agrees() && AtRest()
      ensures old(st)[sid].Failed? ==> rc == -3
      ensures st[sid] == if rc == 0 then Mounted else if rc == -EBUSY && !old(st)[sid].Failed? then New else Failed
      ensures path == if rc == 0 then MountedPath(PartName(disk, index[sid])) else ""
      ensures kernel.attempts <= old(kernel.attempts) + 51
      ensures old(Conflicts(index[sid])) && !replace ==> kernel.attempts <= old(kernel.attempts) + 1
      ensures replace && !old(st)[sid].Failed? ==> (Blocked(index[sid]) <==> kernel.refused != old(kernel.refused))
      ensures whole == old(whole) || (replace && old(whole).Mounted? && whole.New?)
      ensures st == old(st)[sid := st[sid]]
    {
      path := "";
      if st[sid].Mounted? { return 0, MountedPath(PartName(disk, index[sid])); }
      if st[sid].Failed? { return -3, ""; }
      st := st[sid := Mounting];
      if replace { ReleaseConflicts(index[sid]); }
      assert st == old(st)[sid := Mounting];
      rc := MountRetrying(index[sid]);
      st := st[sid := if rc == 0 then Mounted else if rc == -EBUSY then New else Failed];
      if rc == 0 { path := MountedPath(PartName(disk, index[sid])); }
    }

    /** enter_container_slot: every container is refused with `refusal` and marked FAILED. */
    method EnterContainerSlot(sid: nat, refusal: int) returns (rc: int)
      requires Agrees() && AtRest() && sid < |st| && !isFs[sid] && refusal < 0
      modifies this`st
      ensures Agrees() && AtRest() && rc < 0 && st == old(st)[sid := Failed]
      ensures rc == if old(st)[sid].Failed? then -3 else refusal
    {
      if st[sid].Failed? { return -3; }
      st := st[sid := Failed];
      rc := refusal;
    }

    /** anyfs_session_enter */
    method Enter(part: nat, replace: bool, refusal: int) returns (rc: int, path: string)
      requires Agrees() && AtRest() && refusal < 0
      modifies this`whole, this`st, kernel
      ensures Agrees() && AtRest()
      ensures rc == 0 <==> kernel.Has(part)
      ensures rc == 0 ==> path == MountedPath(if part == 0 then WholeName(disk) else PartName(disk, part))
      ensures rc != 0 ==> path == ""
      ensures part == 0 && !hasWholeDev ==> rc == -4
      ensures part != 0 && part !in index ==> rc == -2
      ensures kernel.attempts <= old(kernel.attempts) + 51
      ensures old(Conflicts(part)) && !replace ==> kernel.attempts <= old(kernel.attempts) + 1
      ensures replace && old(Enterable(part)) ==> (Blocked(part) <==> kernel.refused != old(kernel.refused))
      ensures forall i | 0 <= i < |st| && old(st)[i].Failed? :: st[i].Failed?
    {
      if part == 0 {
        rc, path := EnterWhole(replace);
        return;
      }
      var sid := Find(part);
      if sid == -1 { return -2, ""; }
      if isFs[sid] {
        rc, path := EnterFsSlot(sid, replace);
      } else {
        rc := EnterContainerSlot(sid, refusal);
        path := "";
      }
    }
  }

  datatype Op = EnterOp(part: nat, replace: bool, refusal: int) | LeaveOp(leaving: nat)

  /**
   * Every serialised run: records and kernel agree after every call, so the
   * whole disk and a partition are never both MOUNTED, FAILED is never left,
   * and each enter makes at most 51 mount attempts.
   */
  method Run(s: Session, ops: seq<Op>)
    requires s.Agrees() && s.AtRest()
    requires forall i | 0 <= i < |ops| :: ops[i].EnterOp? ==> ops[i].refusal < 0
    modifies s`whole, s`st, s.kernel
    ensures s.Agrees() && s.AtRest()
    ensures s.whole.Mounted? ==> forall i | 0 <= i < |s.st| :: !s.st[i].Mounted?
    ensures forall i | 0 <= i < |s.st| && old(s.st)[i].Failed? :: s.st[i].Failed?
    ensures s.kernel.attempts <= old(s.kernel.attempts) + 51 * |ops|
  {
    var n := 0;
    while n < |ops|
      invariant 0 <= n <= |ops| && s.Agrees() && s.AtRest() && |s.st| == old(|s.st|)
      invariant forall i | 0 <= i < |s.st| && old(s.st)[i].Failed? :: s.st[i].Failed?
      invariant s.kernel.attempts <= old(s.kernel.attempts) + 51 * n
    {
      match ops[n] {
        case EnterOp(part, replace, refusal) => var _, _ := s.Enter(part, replace, refusal);
        case LeaveOp(part) => var _ := s.Leave(part);
      }
      n := n + 1;
    }
  }
}
