/** Exclusive tenant binding of GPU devices with a zeroing hold between tenancies. Each Lua
    script is one atomic step on the device's hash; a zero pass is not atomic: it clears the
    device's memory cell by cell between its start and the hold clear that follows it. */
module GpuBinding {
  import opened Common

  /** The fields of a device's binding hash; zeroing is the field having the value '1'. */
  datatype Binding = Binding(tenant: Option<string>, allocation: Option<string>, zeroing: bool)

  const FREE := Binding(None, None, false)

  predicate CanBind(b: Binding, tenant: string) {
    !b.zeroing && (b.tenant.None? || b.tenant.value == tenant)
  }

  function BindScript(b: Binding, tenant: string, allocation: string): Binding {
    if CanBind(b, tenant) then Binding(Some(tenant), Some(allocation), false) else b
  }

  function ReleaseScript(b: Binding, allocation: string): Binding {
    if b.allocation == Some(allocation) then Binding(None, None, true) else b
  }

  function ClearScript(b: Binding): Binding {
    if b.zeroing then FREE else b
  }

  type Device = string
  type Cell = nat

  /** A zero pass: its device, the number of releases its device had seen if it started while the
      hold was on, and the cells it has cleared so far. */
  datatype Pass = Pass(device: Device, hold: Option<nat>, cleared: set<Cell>)

  datatype System = System(
    bindings: map<Device, Binding>,
    releases: map<Device, nat>,
    dirty: map<Device, set<Cell>>,
    passes: map<nat, Pass>)

  const INIT := System(map[], map[], map[], map[])

  function BindingOf(s: System, d: Device): Binding { if d in s.bindings then s.bindings[d] else FREE }
  function ReleasesOf(s: System, d: Device): nat { if d in s.releases then s.releases[d] else 0 }
  function DirtyOf(s: System, d: Device): set<Cell> { if d in s.dirty then s.dirty[d] else {} }

  /** Write is the bound tenant's workload dirtying a cell. BeginZero, ZeroCells and EndZero are
      ZeroDevice: the pass starts, clears cells as it goes, and having cleared all of them clears the hold.
      A pass that fails simply takes no further step. */
  datatype Step =
    | Bind(device: Device, tenant: string, allocation: string)
    | Release(device: Device, allocation: string)
    | Write(device: Device, cell: Cell)
    | BeginZero(pass: nat, device: Device)
    | ZeroCells(pass: nat, cells: set<Cell>)
    | EndZero(pass: nat)

  function Apply(s: System, memory: set<Cell>, step: Step): System {
    match step
    case Bind(d, tenant, allocation) =>
      s.(bindings := s.bindings[d := BindScript(BindingOf(s, d), tenant, allocation)])
    case Release(d, allocation) =>
      var b := BindingOf(s, d);
      s.(bindings := s.bindings[d := ReleaseScript(b, allocation)],
         releases := s.releases[d := ReleasesOf(s, d) + if b.allocation == Some(allocation) then 1 else 0])
    case Write(d, c) =>
      if BindingOf(s, d).tenant.Some? && c in memory then s.(dirty := s.dirty[d := DirtyOf(s, d) + {c}]) else s
    case BeginZero(p, d) =>
      s.(passes := s.passes[p := Pass(d, if BindingOf(s, d).zeroing then Some(ReleasesOf(s, d)) else None, {})])
    case ZeroCells(p, cs) =>
      if p !in s.passes then s
      else
        var pass := s.passes[p];
        s.(dirty := s.dirty[pass.device := DirtyOf(s, pass.device) - cs],
           passes := s.passes[p := pass.(cleared := pass.cleared + cs)])
    case EndZero(p) =>
      if p !in s.passes || !(memory <= s.passes[p].cleared) then s
      else
        var d := s.passes[p].device;
        s.(bindings := s.bindings[d := ClearScript(BindingOf(s, d))], passes := s.passes - {p})
  }

  function Run(memory: set<Cell>, steps: seq<Step>): System {
    if steps == [] then INIT else Apply(Run(memory, Front(steps)), memory, Last(steps))
  }

  /** The state before step i of a run. */
  function Before(memory: set<Cell>, steps: seq<Step>, i: nat): System
    requires i <= |steps|
  {
    Run(memory, steps[..i])
  }

  predicate Binds(memory: set<Cell>, steps: seq<Step>, i: nat, d: Device, tenant: string) {
    && i < |steps| && steps[i].Bind? && steps[i].device == d && steps[i].tenant == tenant
    && CanBind(BindingOf(Before(memory, steps, i), d), tenant)
  }

  /** Step r is a Release of d by the allocation recorded at that moment. */
  predicate Releases(memory: set<Cell>, steps: seq<Step>, r: nat, d: Device) {
    && r < |steps| && steps[r].Release? && steps[r].device == d
    && BindingOf(Before(memory, steps, r), d).allocation == Some(steps[r].allocation)
  }

  /** Step c lifts the hold on d. */
  predicate Clears(memory: set<Cell>, steps: seq<Step>, c: nat, d: Device) {
    && c < |steps| && steps[c].EndZero?
    && BindingOf(Before(memory, steps, c), d).zeroing && !BindingOf(Before(memory, steps, c + 1), d).zeroing
  }

  lemma {:induction false} RunSnoc(memory: set<Cell>, steps: seq<Step>, step: Step)
    ensures Run(memory, steps + [step]) == Apply(Run(memory, steps), memory, step)
  {
    FrontLast(steps, step);
  }

  lemma {:induction false} BeforeStep(memory: set<Cell>, steps: seq<Step>, i: nat)
    requires i < |steps|
    ensures Before(memory, steps, i + 1) == Apply(Before(memory, steps, i), memory, steps[i])
  {
    assert steps[..i + 1] == steps[..i] + [steps[i]];
    FrontLast(steps[..i], steps[i]);
  }

  /** Either free, bound, or held: the three states of a device. */
  predicate WellFormed(b: Binding) {
    && (b.tenant.Some? <==> b.allocation.Some?)
    && (b.zeroing ==> b.tenant.None?)
  }

  // ---------------------------------------------------------------------------
  // The abstract machine: a device is free, held by a tenant's allocation, or zeroing
  // ---------------------------------------------------------------------------

  datatype Phase = Idle | HeldBy(tenant: string, allocation: string) | Zeroing

  /** EndZero of a pass on d that has cleared the whole memory. */
  predicate CompletesOn(s: System, memory: set<Cell>, step: Step, d: Device) {
    step.EndZero? && step.pass in s.passes && s.passes[step.pass].device == d && memory <= s.passes[step.pass].cleared
  }

  function NextPhase(ph: Phase, step: Step, d: Device, completes: bool): Phase {
    match step
    case Bind(e, tenant, allocation) =>
      if e == d && (ph.Idle? || (ph.HeldBy? && ph.tenant == tenant)) then HeldBy(tenant, allocation) else ph
    case Release(e, allocation) =>
      if e == d && ph.HeldBy? && ph.allocation == allocation then Zeroing else ph
    case _ => if completes && ph.Zeroing? then Idle else ph
  }

  function PhaseOf(memory: set<Cell>, steps: seq<Step>, d: Device): Phase {
    if steps == [] then Idle
    else NextPhase(PhaseOf(memory, Front(steps), d), Last(steps), d,
                   CompletesOn(Run(memory, Front(steps)), memory, Last(steps), d))
  }

  function HashFor(ph: Phase): Binding {
    match ph
    case Idle => FREE
    case HeldBy(tenant, allocation) => Binding(Some(tenant), Some(allocation), false)
    case Zeroing => Binding(None, None, true)
  }

  lemma {:induction false} PhaseStep(memory: set<Cell>, s: System, step: Step, d: Device, ph: Phase)
    requires BindingOf(s, d) == HashFor(ph)
    ensures BindingOf(Apply(s, memory, step), d) == HashFor(NextPhase(ph, step, d, CompletesOn(s, memory, step, d)))
  {
  }

  /** The three hash fields never show anything but the three phases: the recorded tenant and
      allocation are those of the last Bind that was let in and not released since. */
  lemma {:induction false} HashIsPhase(memory: set<Cell>, steps: seq<Step>, d: Device)
    ensures BindingOf(Run(memory, steps), d) == HashFor(PhaseOf(memory, steps, d))
  {
    if steps != [] {
      HashIsPhase(memory, Front(steps), d);
      PhaseStep(memory, Run(memory, Front(steps)), Last(steps), d, PhaseOf(memory, Front(steps), d));
    }
  }

  /** How far the handover of d from tenant has come, i being the bind that gave it the device. */
  ghost predicate Progress(memory: set<Cell>, steps: seq<Step>, i: nat, j: nat, d: Device, tenant: string)
    requires j <= |steps|
  {
    var b := BindingOf(Before(memory, steps, j), d);
    || b.tenant == Some(tenant)
    || (b.zeroing && exists r :: i < r < j && Releases(memory, steps, r, d))
    || exists r, c :: i < r < c < j && Releases(memory, steps, r, d) && Clears(memory, steps, c, d)
  }

  lemma {:induction false} AlwaysWellFormed(memory: set<Cell>, steps: seq<Step>, d: Device)
    ensures WellFormed(BindingOf(Run(memory, steps), d))
  {
    HashIsPhase(memory, steps, d);
  }

  /** What one step can do to a device that is bound, and to one that is held. */
  lemma {:induction false} LeavesOnlyBy(memory: set<Cell>, s: System, step: Step, d: Device)
    requires WellFormed(BindingOf(s, d))
    ensures var b, b' := BindingOf(s, d), BindingOf(Apply(s, memory, step), d);
            && (b.tenant.Some? && b'.tenant != b.tenant ==>
                  step.Release? && step.device == d && b.allocation == Some(step.allocation) && b'.zeroing)
            && (b.zeroing && !b'.zeroing ==> step.EndZero?)
  {
  }

  lemma {:induction false} ProgressStep(memory: set<Cell>, steps: seq<Step>, i: nat, j: nat, d: Device, tenant: string)
    requires i < j < |steps| && Progress(memory, steps, i, j, d, tenant)
    ensures Progress(memory, steps, i, j + 1, d, tenant)
  {
    BeforeStep(memory, steps, j);
    AlwaysWellFormed(memory, steps[..j], d);
    LeavesOnlyBy(memory, Before(memory, steps, j), steps[j], d);
    var b, b' := BindingOf(Before(memory, steps, j), d), BindingOf(Before(memory, steps, j + 1), d);
    if b.tenant == Some(tenant) {
      if b'.tenant != Some(tenant) {
        assert Releases(memory, steps, j, d);
      }
    } else if b.zeroing && exists r :: i < r < j && Releases(memory, steps, r, d) {
      var r :| i < r < j && Releases(memory, steps, r, d);
      if !b'.zeroing {
        assert Clears(memory, steps, j, d);
      }
      assert i < r < j + 1 && Releases(memory, steps, r, d);
    } else {
      var r, c :| i < r < c < j && Releases(memory, steps, r, d) && Clears(memory, steps, c, d);
      assert i < r < c < j + 1 && Releases(memory, steps, r, d) && Clears(memory, steps, c, d);
    }
  }

  lemma {:induction false} ProgressTo(memory: set<Cell>, steps: seq<Step>, i: nat, j: nat, d: Device, tenant: string)
    requires i < j <= |steps| && Binds(memory, steps, i, d, tenant)
    ensures Progress(memory, steps, i, j, d, tenant)
    decreases j
  {
    if j == i + 1 {
      BeforeStep(memory, steps, i);
    } else {
      ProgressTo(memory, steps, i, j - 1, d, tenant);
      ProgressStep(memory, steps, i, j - 1, d, tenant);
    }
  }

  /** Exclusive tenancy, on every run over any devices and any number of schedulers: between two
      successful Binds of a device by different tenants, the allocation recorded at that moment
      released it and, after that, its hold was cleared. */
  lemma {:induction false} TenanciesAreSeparated(memory: set<Cell>, steps: seq<Step>, i: nat, j: nat, d: Device,
                                                 t: string, u: string)
    requires i < j && t != u && Binds(memory, steps, i, d, t) && Binds(memory, steps, j, d, u)
    ensures exists r, c :: i < r < c < j && Releases(memory, steps, r, d) && Clears(memory, steps, c, d)
  {
    ProgressTo(memory, steps, i, j, d, t);
  }

  /** A Release by any allocation other than the recorded one, such as one superseded by a
      re-bind or left over from an earlier tenancy, leaves every device as it was. */
  lemma {:induction false} StaleReleaseIsInert(memory: set<Cell>, steps: seq<Step>, r: nat, d: Device)
    requires r < |steps| && steps[r].Release? && !Releases(memory, steps, r, steps[r].device)
    ensures var s, s' := Before(memory, steps, r), Before(memory, steps, r + 1);
            BindingOf(s', d) == BindingOf(s, d) && ReleasesOf(s', d) == ReleasesOf(s, d)
            && DirtyOf(s', d) == DirtyOf(s, d) && s'.passes == s.passes
  {
    BeforeStep(memory, steps, r);
  }

  // ---------------------------------------------------------------------------
  // What a new tenancy finds in memory
  // ---------------------------------------------------------------------------

  /** Each pass that lifts a hold started under that very hold. */
  ghost predicate StartsUnderHold(s: System, step: Step) {
    step.EndZero? && step.pass in s.passes ==>
      var pass := s.passes[step.pass];
      BindingOf(s, pass.device).zeroing ==> pass.hold == Some(ReleasesOf(s, pass.device))
  }

  ghost predicate Disciplined(memory: set<Cell>, steps: seq<Step>) {
    steps == [] || (Disciplined(memory, Front(steps)) && StartsUnderHold(Run(memory, Front(steps)), Last(steps)))
  }

  /** A device that is free is clean. */
  ghost predicate CleanDevice(s: System, memory: set<Cell>, d: Device) {
    DirtyOf(s, d) <= memory && (BindingOf(s, d) == FREE ==> DirtyOf(s, d) == {})
  }

  /** While the hold is on that a pass started under, no cell the pass cleared is dirty. */
  ghost predicate CleanPass(s: System, p: nat) {
    p in s.passes && s.passes[p].hold.Some? ==>
      var pass := s.passes[p];
      && pass.hold.value <= ReleasesOf(s, pass.device)
      && (BindingOf(s, pass.device).zeroing && pass.hold.value == ReleasesOf(s, pass.device) ==>
            pass.cleared !! DirtyOf(s, pass.device))
  }

  ghost predicate Clean(s: System, memory: set<Cell>) {
    (forall d :: CleanDevice(s, memory, d)) && (forall p :: CleanPass(s, p))
  }

  lemma {:induction false} DeviceStep(memory: set<Cell>, s: System, step: Step, d: Device)
    requires Clean(s, memory) && WellFormed(BindingOf(s, d)) && StartsUnderHold(s, step)
    ensures CleanDevice(Apply(s, memory, step), memory, d)
  {
    var s' := Apply(s, memory, step);
    assert CleanDevice(s, memory, d);
    if BindingOf(s', d) == FREE && BindingOf(s, d) != FREE {
      // only a hold clear makes a device free, and its pass has cleared every cell since the release
      assert CleanPass(s, step.pass);
      assert DirtyOf(s, d) == {};
    }
  }

  lemma {:induction false} PassStep(memory: set<Cell>, s: System, step: Step, p: nat)
    requires Clean(s, memory) && (forall d :: WellFormed(BindingOf(s, d)))
    ensures CleanPass(Apply(s, memory, step), p)
  {
    assert CleanPass(s, p);
    if p in s.passes {
      assert WellFormed(BindingOf(s, s.passes[p].device));
    }
  }

  lemma {:induction false} CleanAlways(memory: set<Cell>, steps: seq<Step>)
    requires Disciplined(memory, steps)
    ensures Clean(Run(memory, steps), memory)
  {
    if steps != [] {
      CleanAlways(memory, Front(steps));
      forall d
        ensures WellFormed(BindingOf(Run(memory, Front(steps)), d))
      {
        AlwaysWellFormed(memory, Front(steps), d);
      }
      var s, step := Run(memory, Front(steps)), Last(steps);
      forall d ensures CleanDevice(Apply(s, memory, step), memory, d) { DeviceStep(memory, s, step, d); }
      forall p ensures CleanPass(Apply(s, memory, step), p) { PassStep(memory, s, step, p); }
    }
  }

  /** No leftovers: if every pass starts under the hold it clears, each Bind that starts a tenancy
      finds every cell of the device cleared since the last tenancy wrote it. */
  lemma {:induction false} TenancyStartsClean(memory: set<Cell>, steps: seq<Step>, i: nat, d: Device, tenant: string)
    requires Binds(memory, steps, i, d, tenant) && Disciplined(memory, steps[..i])
    requires BindingOf(Before(memory, steps, i), d).tenant.None?
    ensures DirtyOf(Before(memory, steps, i), d) == {}
  {
    CleanAlways(memory, steps[..i]);
    AlwaysWellFormed(memory, steps[..i], d);
    assert CleanDevice(Before(memory, steps, i), memory, d);
  }

  /** The condition is needed: from any state in which a device is bound while a pass on it is open,
      and so started outside the hold to come, the steps can go on, every call succeeding, to a new
      tenancy on dirty memory. */
  lemma {:induction false} EarlyPassLeaks(memory: set<Cell>, steps: seq<Step>, d: Device, p: nat, c: Cell,
                                          tenant: string)
    requires c in memory
    requires var s := Run(memory, steps);
             BindingOf(s, d).tenant.Some? && p in s.passes && s.passes[p].device == d
    ensures var held := BindingOf(Run(memory, steps), d).allocation;
            held.Some? &&
            var more := [ZeroCells(p, memory), Write(d, c), Release(d, held.value), EndZero(p)];
            var s := Run(memory, steps + more);
            CanBind(BindingOf(s, d), tenant) && BindingOf(s, d).tenant.None? && c in DirtyOf(s, d)
  {
    AlwaysWellFormed(memory, steps, d);
    var held := BindingOf(Run(memory, steps), d).allocation.value;
    var run1 := steps + [ZeroCells(p, memory)];
    var run2 := run1 + [Write(d, c)];
    var run3 := run2 + [Release(d, held)];
    RunSnoc(memory, steps, ZeroCells(p, memory));
    RunSnoc(memory, run1, Write(d, c));
    RunSnoc(memory, run2, Release(d, held));
    RunSnoc(memory, run3, EndZero(p));
    assert run3 + [EndZero(p)] == steps + [ZeroCells(p, memory), Write(d, c), Release(d, held), EndZero(p)];
    var s2 := Run(memory, run2);
    assert c in DirtyOf(s2, d) && p in s2.passes && s2.passes[p].device == d && memory <= s2.passes[p].cleared;
    assert BindingOf(Run(memory, run3), d) == Binding(None, None, true);
  }

  // ---------------------------------------------------------------------------
  // The exact condition: no pass is ever open on a bound device
  // ---------------------------------------------------------------------------

  predicate OpenOnBound(s: System, p: nat) {
    p in s.passes && BindingOf(s, s.passes[p].device).tenant.Some?
  }

  /** The pass p that is open now has been open while its device was bound. */
  predicate Exposed(memory: set<Cell>, steps: seq<Step>, p: nat) {
    p in Run(memory, steps).passes &&
    (OpenOnBound(Run(memory, steps), p) ||
     (steps != [] && !(Last(steps).BeginZero? && Last(steps).pass == p) && Exposed(memory, Front(steps), p)))
  }

  lemma {:induction false} ExposedOnce(memory: set<Cell>, steps: seq<Step>, p: nat) returns (j: nat)
    requires Exposed(memory, steps, p)
    ensures j <= |steps| && OpenOnBound(Before(memory, steps, j), p)
  {
    if OpenOnBound(Run(memory, steps), p) {
      j := |steps|;
      assert steps[..j] == steps;
    } else {
      j := ExposedOnce(memory, Front(steps), p);
      assert Front(steps)[..j] == steps[..j];
    }
  }

  /** p's device is not bound, and if it is held, it is by the hold p started under. */
  predicate UnderHold(s: System, p: nat) {
    p in s.passes ==>
      var pass := s.passes[p];
      var b := BindingOf(s, pass.device);
      b.tenant.None? && (b.zeroing ==> pass.hold == Some(ReleasesOf(s, pass.device)))
  }

  lemma {:induction false} UnderHoldStep(memory: set<Cell>, s: System, step: Step, p: nat)
    requires UnderHold(s, p) || (step.BeginZero? && step.pass == p)
    requires p in s.passes ==> WellFormed(BindingOf(s, s.passes[p].device))
    requires !OpenOnBound(Apply(s, memory, step), p)
    ensures UnderHold(Apply(s, memory, step), p)
  {
  }

  /** A pass about to lift a hold it did not start under has been open while its device was bound. */
  lemma {:induction false} OutsideHoldMeansExposed(memory: set<Cell>, steps: seq<Step>, p: nat)
    requires !UnderHold(Run(memory, steps), p)
    ensures Exposed(memory, steps, p)
  {
    if steps != [] && !OpenOnBound(Run(memory, steps), p) {
      var s, step := Run(memory, Front(steps)), Last(steps);
      if p in s.passes {
        AlwaysWellFormed(memory, Front(steps), s.passes[p].device);
      }
      if UnderHold(s, p) || (step.BeginZero? && step.pass == p) {
        UnderHoldStep(memory, s, step, p);
      } else {
        OutsideHoldMeansExposed(memory, Front(steps), p);
      }
    }
  }

  /** At no point of the run is a pass open on a bound device. */
  ghost predicate Careful(memory: set<Cell>, steps: seq<Step>) {
    (forall p :: !OpenOnBound(Run(memory, steps), p)) && (steps == [] || Careful(memory, Front(steps)))
  }

  lemma {:induction false} CarefulNeverExposes(memory: set<Cell>, steps: seq<Step>, p: nat)
    requires Careful(memory, steps)
    ensures !Exposed(memory, steps, p)
  {
    if steps != [] {
      CarefulNeverExposes(memory, Front(steps), p);
    }
  }

  lemma {:induction false} CarefulIsDisciplined(memory: set<Cell>, steps: seq<Step>)
    requires Careful(memory, steps)
    ensures Disciplined(memory, steps)
  {
    if steps != [] {
      var front, last := Front(steps), Last(steps);
      CarefulIsDisciplined(memory, front);
      if last.EndZero? {
        CarefulNeverExposes(memory, front, last.pass);
        if !UnderHold(Run(memory, front), last.pass) {
          OutsideHoldMeansExposed(memory, front, last.pass);
        }
      }
    }
  }

  /** Nobody binds and no pass starts. */
  ghost predicate Quiet(more: seq<Step>) {
    forall step :: step in more ==> !step.Bind? && !step.BeginZero?
  }

  lemma {:induction false} QuietStep(memory: set<Cell>, s: System, step: Step, p: nat)
    requires !step.Bind? && !step.BeginZero? && !OpenOnBound(s, p)
    ensures !OpenOnBound(Apply(s, memory, step), p)
  {
  }

  lemma {:induction false} QuietStaysCareful(memory: set<Cell>, steps: seq<Step>, more: seq<Step>)
    requires Careful(memory, steps) && Quiet(more)
    ensures Careful(memory, steps + more)
  {
    if more == [] {
      assert steps + more == steps;
    } else {
      var front, last := Front(more), Last(more);
      Snoc(more);
      QuietStaysCareful(memory, steps, front);
      assert steps + more == (steps + front) + [last];
      FrontLast(steps + front, last);
      forall p
        ensures !OpenOnBound(Run(memory, steps + more), p)
      {
        QuietStep(memory, Run(memory, steps + front), last, p);
      }
    }
  }

  ghost predicate FreeIsClean(s: System, d: Device) {
    BindingOf(s, d) == FREE ==> DirtyOf(s, d) == {}
  }

  /** However the passes, workloads and releases already under way go on, every device that comes
      free is clean. */
  ghost predicate SafeNow(memory: set<Cell>, steps: seq<Step>) {
    forall more, d :: Quiet(more) ==> FreeIsClean(Run(memory, steps + more), d)
  }

  ghost predicate SafeThroughout(memory: set<Cell>, steps: seq<Step>) {
    SafeNow(memory, steps) && (steps == [] || SafeThroughout(memory, Front(steps)))
  }

  lemma {:induction false} CarefulIsSafe(memory: set<Cell>, steps: seq<Step>)
    requires Careful(memory, steps)
    ensures SafeNow(memory, steps)
  {
    forall more, d | Quiet(more)
      ensures FreeIsClean(Run(memory, steps + more), d)
    {
      QuietStaysCareful(memory, steps, more);
      CarefulIsDisciplined(memory, steps + more);
      CleanAlways(memory, steps + more);
      assert CleanDevice(Run(memory, steps + more), memory, d);
    }
  }

  lemma {:induction false} OpenOnBoundIsUnsafe(memory: set<Cell>, steps: seq<Step>, p: nat, c: Cell)
    requires c in memory && OpenOnBound(Run(memory, steps), p)
    ensures !SafeNow(memory, steps)
  {
    var d := Run(memory, steps).passes[p].device;
    EarlyPassLeaks(memory, steps, d, p, c, "next");
    var held := BindingOf(Run(memory, steps), d).allocation.value;
    var more := [ZeroCells(p, memory), Write(d, c), Release(d, held), EndZero(p)];
    AlwaysWellFormed(memory, steps + more, d);
    assert Quiet(more) && !FreeIsClean(Run(memory, steps + more), d);
  }

  /** The exact condition for reuse of memory to be safe: at every point of a run, whatever is under way
      can only free clean devices, if and only if at no point is a pass open on a bound device. */
  lemma {:induction false} SafeExactly(memory: set<Cell>, steps: seq<Step>, c: Cell)
    requires c in memory
    ensures SafeThroughout(memory, steps) <==> Careful(memory, steps)
  {
    if steps != [] {
      SafeExactly(memory, Front(steps), c);
    }
    if Careful(memory, steps) {
      CarefulIsSafe(memory, steps);
    } else if p :| OpenOnBound(Run(memory, steps), p) {
      OpenOnBoundIsUnsafe(memory, steps, p, c);
    }
  }

  // ---------------------------------------------------------------------------
  // The operations, in place
  // ---------------------------------------------------------------------------

  datatype BindResult = Bound | ZeroingInProgress | BoundToOtherTenant(tenant: string, allocation: string)

  /** What Bind makes of the script's reply, which has the holder's name where it reports a hold. */
  function Report(b: Binding, tenant: string): BindResult {
    if CanBind(b, tenant) then Bound
    else if b.zeroing || b.tenant == Some("zeroing") then ZeroingInProgress
    else BoundToOtherTenant(if b.tenant.Some? then b.tenant.value else "",
                            if b.allocation.Some? then b.allocation.value else "")
  }

  /** The refusal names the reason that holds. */
  predicate Truthful(r: BindResult, b: Binding) {
    if b.zeroing then r == ZeroingInProgress
    else r.BoundToOtherTenant? && b.tenant == Some(r.tenant) && b.allocation == Some(r.allocation)
  }

  /** A refusal is reported truthfully if and only if the device is not held by a tenant named "zeroing". */
  lemma {:induction false} ReportIsTrueExactly(memory: set<Cell>, steps: seq<Step>, d: Device, tenant: string)
    requires !CanBind(BindingOf(Run(memory, steps), d), tenant)
    ensures var b := BindingOf(Run(memory, steps), d);
            Truthful(Report(b, tenant), b) <==> b.tenant != Some("zeroing")
  {
    AlwaysWellFormed(memory, steps, d);
  }

  /** One Bind by a tenant of that name is enough. */
  lemma {:induction false} ZeroingTenantMisreported(memory: set<Cell>, d: Device)
    ensures var b := BindingOf(Run(memory, [Bind(d, "zeroing", "a1")]), d);
            !b.zeroing && Report(b, "other") == ZeroingInProgress
  {
    RunSnoc(memory, [], Bind(d, "zeroing", "a1"));
    assert [] + [Bind(d, "zeroing", "a1")] == [Bind(d, "zeroing", "a1")];
  }

  class Bindings {
    var hashes: map<Device, Binding>

    constructor ()
      ensures hashes == map[]
    {
      hashes := map[];
    }

    ghost function At(d: Device): Binding
      reads this
    {
      if d in hashes then hashes[d] else FREE
    }

    /** A refused Bind changes nothing; ReportIsTrueExactly says when its error tells the truth. */
    method Bind(d: Device, tenant: string, allocation: string) returns (r: BindResult)
      modifies this
      ensures At(d) == BindScript(old(At(d)), tenant, allocation)
      ensures old(WellFormed(At(d))) ==> WellFormed(At(d))
      ensures forall other :: other != d ==> At(other) == old(At(other))
      ensures r == Report(old(At(d)), tenant)
      ensures r.Bound? <==> !old(At(d)).zeroing && (old(At(d)).tenant == None || old(At(d)).tenant == Some(tenant))
      ensures At(d) == if r.Bound? then Binding(Some(tenant), Some(allocation), false) else old(At(d))
    {
      var b := if d in hashes then hashes[d] else FREE;
      if b.zeroing {
        return ZeroingInProgress;
      }
      if b.tenant.Some? && b.tenant.value != tenant {
        if b.tenant.value == "zeroing" {
          return ZeroingInProgress;
        }
        return BoundToOtherTenant(b.tenant.value, if b.allocation.Some? then b.allocation.value else "");
      }
      hashes := hashes[d := Binding(Some(tenant), Some(allocation), false)];
      r := Bound;
    }

    method Release(d: Device, allocation: string)
      modifies this
      ensures At(d) == ReleaseScript(old(At(d)), allocation)
      ensures At(d) == if old(At(d)).allocation == Some(allocation) then Binding(None, None, true) else old(At(d))
      ensures forall other :: other != d ==> At(other) == old(At(other))
    {
      var b := if d in hashes then hashes[d] else FREE;
      if b.allocation == Some(allocation) {
        hashes := hashes[d := Binding(None, None, true)];
      }
    }

    method CompleteZero(d: Device)
      modifies this
      ensures At(d) == ClearScript(old(At(d)))
      ensures At(d) == if old(At(d)).zeroing then Binding(None, None, false) else old(At(d))
      ensures forall other :: other != d ==> At(other) == old(At(other))
    {
      if d in hashes && hashes[d].zeroing {
        hashes := hashes - {d};
      }
    }

    /** A failed zero pass leaves the hold in place. */
    method ZeroDevice(d: Device, zeroed: bool) returns (ok: bool)
      modifies this
      ensures ok == zeroed
      ensures At(d) == if zeroed then ClearScript(old(At(d))) else old(At(d))
      ensures forall other :: other != d ==> At(other) == old(At(other))
    {
      if !zeroed {
        return false;
      }
      CompleteZero(d);
      ok := true;
    }
  }
}
