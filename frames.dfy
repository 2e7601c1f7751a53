/** What the per-frame drawing code of both render states shares: the rotating
    frame slot, the driver's answers for one frame, and the fence guard that keeps a
    command buffer from being re-recorded before the GPU is done with it. */
module Frames {
  import opened Wrappers
  import opened Gpu
  import Utils

  /** The slot after `slot`: `(current_frame + 1) % FRAMES_IN_FLIGHT`. */
  function NextSlot(slot: nat): (r: nat)
    ensures r < Utils.FRAMES_IN_FLIGHT
  {
    (slot + 1) % Utils.FRAMES_IN_FLIGHT
  }

  /** The slot after `n` frames, whether or not they succeeded. */
  function SlotAfter(slot: nat, n: nat): nat {
    if n == 0 then slot else NextSlot(SlotAfter(slot, n - 1))
  }

  /** Advancing a reduced count by one is advancing the count by one. */
  lemma NextSlotOfMod(x: nat)
    ensures NextSlot(x % Utils.FRAMES_IN_FLIGHT) == (x + 1) % Utils.FRAMES_IN_FLIGHT
  {
    var q, r := x / 3, x % 3;
    assert x == 3 * q + r;
    if r < 2 {
      assert x + 1 == 3 * q + (r + 1);
    } else {
      assert x + 1 == 3 * (q + 1);
    }
  }

  lemma {:induction false} SlotAfterIsModular(slot: nat, n: nat)
    requires slot < Utils.FRAMES_IN_FLIGHT
    ensures SlotAfter(slot, n) == (slot + n) % Utils.FRAMES_IN_FLIGHT
  {
    if n > 0 {
      SlotAfterIsModular(slot, n - 1);
      NextSlotOfMod(slot + n - 1);
    }
  }

  /** Taking one step first and then `n` is taking `n + 1` steps. */
  lemma {:induction false} SlotAfterFront(slot: nat, n: nat)
    ensures SlotAfter(NextSlot(slot), n) == SlotAfter(slot, n + 1)
  {
    if n > 0 {
      SlotAfterFront(slot, n - 1);
    }
  }

  /** The slot stays in range and cycles with period exactly FRAMES_IN_FLIGHT: two frame
      counts land on the same slot if and only if they agree modulo 3, so any three
      consecutive frames use three different slots. */
  lemma SlotRotation(slot: nat, m: nat, n: nat)
    requires slot < Utils.FRAMES_IN_FLIGHT
    ensures SlotAfter(slot, n) < Utils.FRAMES_IN_FLIGHT
    ensures SlotAfter(slot, m) == SlotAfter(slot, n) <==> m % Utils.FRAMES_IN_FLIGHT == n % Utils.FRAMES_IN_FLIGHT
  {
    SlotAfterIsModular(slot, m);
    SlotAfterIsModular(slot, n);
    ShiftedSlot(slot, m);
    ShiftedSlot(slot, n);
  }

  /** Only the count modulo FRAMES_IN_FLIGHT matters, and a shift by `slot` is one-to-one. */
  lemma ShiftedSlot(slot: nat, m: nat)
    requires slot < Utils.FRAMES_IN_FLIGHT
    ensures (slot + m) % Utils.FRAMES_IN_FLIGHT == (slot + m % Utils.FRAMES_IN_FLIGHT) % Utils.FRAMES_IN_FLIGHT
  {
    var q, r := m / 3, m % 3;
    assert slot + m == 3 * q + (slot + r);
  }

  /** The driver's answers during one frame: the image index `acquire_image` returns (or
      its failure), and whether waiting on and resetting the fence, mapping the vertex and
      index memory, and presenting succeed. */
  datatype FrameAnswers = FrameAnswers(
    acquired: Option<nat>,
    waitOk: bool,
    resetOk: bool,
    vertexMapOk: bool,
    indexMapOk: bool,
    presentOk: bool)

  /** The effect of one draw call: the new slot, the calls issued, the fences reported
      signaled afterwards, which buffers were rewritten, and the returned result. */
  datatype FrameRun = FrameRun(
    currentFrame: nat,
    events: seq<Event>,
    signaled: set<Handle>,
    vertexLoaded: bool,
    indexLoaded: bool,
    result: Result<()>)

  const ACQUIRE_FAILED := "Failed to acquire an image from the swapchain"
  const WAIT_FAILED := "Failed to wait on the fence"
  const RESET_FAILED := "Failed to reset the fence"
  const PRESENT_FAILED := "Failed to present into the swapchain"

  /** The fence status after waiting on and resetting `fence`. */
  function FenceStatus(signaled: set<Handle>, fence: Handle, waitOk: bool, resetOk: bool): set<Handle> {
    if !waitOk then signaled
    else if !resetOk then signaled + {fence}
    else signaled - {fence}
  }

  /** The events that take part in the fence guard. */
  predicate IsGuardEvent(e: Event) {
    e.WaitFence? || e.ResetFence? || e.BeginPrimary? || e.Submit?
  }

  /** The guard events of a trace, in order. */
  function GuardEvents(t: seq<Event>): (g: seq<Event>)
    ensures forall e :: e in g ==> IsGuardEvent(e)
  {
    if t == [] then [] else (if IsGuardEvent(t[0]) then [t[0]] else []) + GuardEvents(t[1..])
  }

  lemma {:induction false} GuardEventsAppend(a: seq<Event>, b: seq<Event>)
    ensures GuardEvents(a + b) == GuardEvents(a) + GuardEvents(b)
  {
    if a == [] {
      assert a + b == b;
    } else {
      assert (a + b)[1..] == a[1..] + b;
      GuardEventsAppend(a[1..], b);
    }
  }

  lemma {:induction false} GuardEventsNone(t: seq<Event>)
    requires forall i :: 0 <= i < |t| ==> !IsGuardEvent(t[i])
    ensures GuardEvents(t) == []
  {
    if t != [] {
      GuardEventsNone(t[1..]);
    }
  }

  lemma GuardEventsOne(e: Event)
    ensures GuardEvents([e]) == if IsGuardEvent(e) then [e] else []
  {
    assert [e][1..] == [];
  }

  /** A recording that begins a command buffer and then only records into it has that
      begin as its one guard event. */
  lemma OneBeginGuard(rec: seq<Event>, commands: Handle)
    requires |rec| > 0 && rec[0] == BeginPrimary(commands)
    requires forall i :: 1 <= i < |rec| ==> !IsGuardEvent(rec[i])
    ensures GuardEvents(rec) == [BeginPrimary(commands)]
  {
    assert rec == [rec[0]] + rec[1..];
    GuardEventsOne(rec[0]);
    GuardEventsNone(rec[1..]);
    GuardEventsAppend([rec[0]], rec[1..]);
  }

  /** The acquire before the fence handshake is no guard event. */
  lemma SyncedGuard(acquire: Event, fence: Handle, waitOk: bool)
    requires !IsGuardEvent(acquire)
    ensures GuardEvents([acquire] + FenceEvents(fence, waitOk)) == FenceEvents(fence, waitOk)
  {
    var f := FenceEvents(fence, waitOk);
    GuardEventsOne(acquire);
    GuardEventsAppend([acquire], f);
    GuardEventsOne(WaitFence(fence));
    if waitOk {
      GuardEventsOne(Event.ResetFence(fence));
      GuardEventsAppend([WaitFence(fence)], [Event.ResetFence(fence)]);
    }
  }

  /** A recording followed by its submission and one more non-guard call (the present)
      has the begin and the submission as its guard events. */
  lemma RecordedGuard(rec: seq<Event>, commands: Handle, submit: Event, post: Event)
    requires |rec| > 0 && rec[0] == BeginPrimary(commands)
    requires forall i :: 1 <= i < |rec| ==> !IsGuardEvent(rec[i])
    requires submit.Submit? && !IsGuardEvent(post)
    ensures GuardEvents(rec + [submit, post]) == [BeginPrimary(commands), submit]
  {
    OneBeginGuard(rec, commands);
    GuardEventsOne(submit);
    GuardEventsOne(post);
    GuardEventsAppend([submit], [post]);
    assert [submit, post] == [submit] + [post];
    GuardEventsAppend(rec, [submit, post]);
  }

  /** A frame that acquires, waits on `fence`, resets it only after a successful wait,
      and runs `after` only after a successful reset, has a prefix of the guard block as
      its guard calls; the whole block exactly when `after` records and submits. */
  lemma FrameGuard(events: seq<Event>, acquire: Event, fence: Handle, waitOk: bool, resetOk: bool,
                   after: seq<Event>, commands: Handle, wait: Handle, signal: Handle, recorded: bool)
    requires !IsGuardEvent(acquire)
    requires events == [acquire] + FenceEvents(fence, waitOk) + (if waitOk && resetOk then after else [])
    requires GuardEvents(after) ==
      if recorded then [BeginPrimary(commands), Submit(commands, wait, signal, fence)] else []
    ensures var g, block := GuardEvents(events), GuardBlock(fence, commands, wait, signal);
      BlockPrefix(g, block) && (g == block <==> waitOk && resetOk && recorded)
  {
    var synced := [acquire] + FenceEvents(fence, waitOk);
    var block := GuardBlock(fence, commands, wait, signal);
    SyncedGuard(acquire, fence, waitOk);
    if waitOk && resetOk {
      GuardEventsAppend(synced, after);
      if recorded {
        assert GuardEvents(events) == block;
      } else {
        assert GuardEvents(events) == block[..2];
      }
    } else {
      assert events == synced;
      if waitOk {
        assert GuardEvents(events) == block[..2];
      } else {
        assert GuardEvents(events) == block[..1];
      }
    }
  }

  /** The guard events of a fully recorded frame on fence `fence` and command buffer `commands`. */
  function GuardBlock(fence: Handle, commands: Handle, wait: Handle, signal: Handle): seq<Event> {
    [WaitFence(fence), Event.ResetFence(fence), BeginPrimary(commands), Submit(commands, wait, signal, fence)]
  }

  /** A frame stops after the acquire, after the wait, after the reset, or completes. */
  predicate BlockPrefix(b: seq<Event>, block: seq<Event>)
    requires |block| == 4
  {
    b == [] || b == block[..1] || b == block[..2] || b == block
  }

  /** Command buffer `commandBuffers[i]` is only ever begun right after a wait on and a
      reset of `fences[i]`, and it is then submitted with that same fence. */
  ghost predicate FenceGuarded(t: seq<Event>, fences: seq<Handle>, commandBuffers: seq<Handle>) {
    forall p, i :: 0 <= p < |t| && 0 <= i < |commandBuffers| && i < |fences| && t[p] == BeginPrimary(commandBuffers[i]) ==>
      2 <= p && t[p - 2] == WaitFence(fences[i]) && t[p - 1] == Event.ResetFence(fences[i]) &&
      p + 1 < |t| && t[p + 1].Submit? && t[p + 1].commands == commandBuffers[i] && t[p + 1].fence == fences[i]
  }

  /** The only begin in a prefix of the guard block is its third call, in the whole block. */
  lemma BeginInBlock(b: seq<Event>, fence: Handle, commands: Handle, wait: Handle, signal: Handle, p: nat)
    requires BlockPrefix(b, GuardBlock(fence, commands, wait, signal))
    requires p < |b| && b[p].BeginPrimary?
    ensures p == 2 && b == GuardBlock(fence, commands, wait, signal)
  {
  }

  /** A begin inside the prepended block is guarded by the block itself. */
  lemma GuardedInBlock(b: seq<Event>, t: seq<Event>, fences: seq<Handle>, commandBuffers: seq<Handle>,
                       image: nat, wait: Handle, signal: Handle, p: nat, i: nat)
    requires Distinct(commandBuffers) && image < |commandBuffers| && image < |fences|
    requires BlockPrefix(b, GuardBlock(fences[image], commandBuffers[image], wait, signal))
    requires p < |b| && i < |commandBuffers| && i < |fences| && (b + t)[p] == BeginPrimary(commandBuffers[i])
    ensures 2 <= p && (b + t)[p - 2] == WaitFence(fences[i]) && (b + t)[p - 1] == Event.ResetFence(fences[i])
    ensures p + 1 < |b + t| && (b + t)[p + 1].Submit? && (b + t)[p + 1].commands == commandBuffers[i] &&
            (b + t)[p + 1].fence == fences[i]
  {
    assert b[p] == (b + t)[p];
    BeginInBlock(b, fences[image], commandBuffers[image], wait, signal, p);
    assert commandBuffers[i] == commandBuffers[image];
    assert i == image;
  }

  /** A begin inside the guarded trace stays guarded behind the prepended block. */
  lemma GuardedInTail(b: seq<Event>, t: seq<Event>, fences: seq<Handle>, commandBuffers: seq<Handle>, p: nat, i: nat)
    requires FenceGuarded(t, fences, commandBuffers)
    requires |b| <= p < |b + t| && i < |commandBuffers| && i < |fences| && (b + t)[p] == BeginPrimary(commandBuffers[i])
    ensures 2 <= p && (b + t)[p - 2] == WaitFence(fences[i]) && (b + t)[p - 1] == Event.ResetFence(fences[i])
    ensures p + 1 < |b + t| && (b + t)[p + 1].Submit? && (b + t)[p + 1].commands == commandBuffers[i] &&
            (b + t)[p + 1].fence == fences[i]
  {
    var q := p - |b|;
    assert t[q] == (b + t)[p];
    assert 2 <= q && t[q - 2] == WaitFence(fences[i]) && t[q - 1] == Event.ResetFence(fences[i]);
    assert q + 1 < |t|;
    assert (b + t)[p - 2] == t[q - 2] && (b + t)[p - 1] == t[q - 1] && (b + t)[p + 1] == t[q + 1];
  }

  /** Putting one frame's guard events in front of a guarded trace keeps it guarded. */
  lemma GuardedPrepend(b: seq<Event>, t: seq<Event>, fences: seq<Handle>, commandBuffers: seq<Handle>,
                       image: nat, wait: Handle, signal: Handle)
    requires Distinct(commandBuffers) && image < |commandBuffers| && image < |fences|
    requires BlockPrefix(b, GuardBlock(fences[image], commandBuffers[image], wait, signal))
    requires FenceGuarded(t, fences, commandBuffers)
    ensures FenceGuarded(b + t, fences, commandBuffers)
  {
    var u := b + t;
    forall p, i | 0 <= p < |u| && 0 <= i < |commandBuffers| && i < |fences| && u[p] == BeginPrimary(commandBuffers[i])
      ensures 2 <= p && u[p - 2] == WaitFence(fences[i]) && u[p - 1] == Event.ResetFence(fences[i])
      ensures p + 1 < |u| && u[p + 1].Submit? && u[p + 1].commands == commandBuffers[i] && u[p + 1].fence == fences[i]
    {
      if p < |b| {
        GuardedInBlock(b, t, fences, commandBuffers, image, wait, signal, p, i);
      } else {
        GuardedInTail(b, t, fences, commandBuffers, p, i);
      }
    }
  }

  lemma GuardedEmpty(fences: seq<Handle>, commandBuffers: seq<Handle>)
    ensures FenceGuarded([], fences, commandBuffers)
  {
  }
}
