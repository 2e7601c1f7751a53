/** `HalState`: the earlier render state, which clears the screen each frame and
    guards both drawing and release with a `freed` flag. */
module Hal {
  import opened Wrappers
  import opened Gpu
  import opened Buffers
  import opened Frames
  import opened Setup
  import opened Teardown
  import Utils

  /** The fields of a `HalState` the core reads and writes. */
  datatype HalView = HalView(
    currentFrame: nat,
    inFlightFences: seq<Handle>,
    renderFinished: seq<Handle>,
    imageAvailable: seq<Handle>,
    commandBuffers: seq<Handle>,
    framebuffers: seq<Handle>,
    imageViews: seq<Handle>,
    commandPool: Handle,
    renderPass: Handle,
    swapchain: Handle,
    freed: bool)

  /** The shape `init` establishes and every operation keeps: the slot is in range; while
      live, one synchronisation object per slot and one command buffer and framebuffer per
      image view; once freed, every drained vector is empty. */
  predicate Shaped(v: HalView) {
    v.currentFrame < Utils.FRAMES_IN_FLIGHT &&
    (!v.freed ==>
      |v.inFlightFences| == Utils.FRAMES_IN_FLIGHT && |v.renderFinished| == Utils.FRAMES_IN_FLIGHT &&
      |v.imageAvailable| == Utils.FRAMES_IN_FLIGHT &&
      |v.commandBuffers| == |v.imageViews| && |v.framebuffers| == |v.imageViews|) &&
    (v.freed ==>
      v.inFlightFences == [] && v.renderFinished == [] && v.imageAvailable == [] &&
      v.framebuffers == [] && v.imageViews == [])
  }

  /** The acquired image indexes the fence, command buffer and framebuffer vectors; the
      driver returns an index below the image count, and the fence vector has only
      FRAMES_IN_FLIGHT entries. */
  predicate Accepts(v: HalView, a: FrameAnswers) {
    !v.freed && a.acquired.Some? ==>
      a.acquired.value < |v.commandBuffers| && a.acquired.value < |v.inFlightFences|
  }

  // ---------------------------------------------------------------- init

  const DEAD_BUFFER_BYTES: nat := 6 * Utils.F32_SIZE

  /** Everything before the unstored vertex buffer succeeded. */
  predicate ReachesDeadBuffer(a: SetupAnswers)
    requires Consistent(a)
  {
    a.swapchain.Some? &&
    Flight(a.imageAvailable, "Could not create semaphore").Ok? &&
    Flight(a.renderFinished, "Could not create semaphore").Ok? &&
    Flight(a.fences, "Could not create fence").Ok? &&
    a.renderPass.Some? &&
    Collect(a.imageViews, "Could not create a backbuffer image view").Ok? &&
    Collect(a.framebuffers, "Could not create framebuffer").Ok? &&
    a.commandPool.Some? &&
    a.pipeline.Ok?
  }

  /** The outcome of `HalState::init`, step by step. The pipeline, its layouts and the
      shader modules are one step whose error the driver supplies; the vertex buffer and
      memory at the end are created and then neither bound nor kept. */
  function HalSetup(a: SetupAnswers): Result<HalView>
    requires Consistent(a)
  {
    if a.swapchain.None? then Err("Could not create swapchain") else
    var imageAvailable :- Flight(a.imageAvailable, "Could not create semaphore");
    var renderFinished :- Flight(a.renderFinished, "Could not create semaphore");
    var fences :- Flight(a.fences, "Could not create fence");
    if a.renderPass.None? then Err("Could not create render pass") else
    var views :- Collect(a.imageViews, "Could not create a backbuffer image view");
    var framebuffers :- Collect(a.framebuffers, "Could not create framebuffer");
    if a.commandPool.None? then Err("Could not create command pool") else
    var pipeline :- a.pipeline;
    if a.vertexBuffer.buffer.None? then Err("Failed to create a buffer for the vertices")
    else if FindMemoryType(a.memoryTypes, a.vertexBuffer.requirements.typeMask).None? then
      Err("Couldn't find a memory type to support the vertex buffer!")
    else if a.vertexBuffer.memory.None? then Err("Couldn't allocate vertex buffer memory")
    else Ok(HalView(0, fences, renderFinished, imageAvailable, a.commandBuffers, framebuffers, views,
                    a.commandPool.value, a.renderPass.value, a.swapchain.value, false))
  }

  /** The logged calls of `init`: creating the unstored vertex buffer and allocating
      memory for it, when construction gets that far. */
  function HalSetupEvents(a: SetupAnswers): seq<Event>
    requires Consistent(a)
  {
    if !ReachesDeadBuffer(a) then []
    else if a.vertexBuffer.buffer.None? then [CreateBuffer(DEAD_BUFFER_BYTES, VertexUsage)]
    else match FindMemoryType(a.memoryTypes, a.vertexBuffer.requirements.typeMask)
      case None => [CreateBuffer(DEAD_BUFFER_BYTES, VertexUsage)]
      case Some(id) => [CreateBuffer(DEAD_BUFFER_BYTES, VertexUsage), AllocateMemory(id, a.vertexBuffer.requirements.size)]
  }

  /** A constructed `HalState` has one image view, framebuffer and command buffer per
      swapchain image, FRAMES_IN_FLIGHT semaphores of each kind and fences, slot 0, and is
      not freed; construction succeeds exactly when every step does. */
  lemma HalSetupShape(a: SetupAnswers)
    requires Consistent(a)
    ensures HalSetup(a).Ok? <==>
      (ReachesDeadBuffer(a) && a.vertexBuffer.buffer.Some? &&
       FindMemoryType(a.memoryTypes, a.vertexBuffer.requirements.typeMask).Some? && a.vertexBuffer.memory.Some?)
    ensures HalSetup(a).Ok? ==>
      var v := HalSetup(a).value;
      Shaped(v) && v.currentFrame == 0 && !v.freed &&
      |v.imageViews| == a.images && |v.framebuffers| == a.images && |v.commandBuffers| == a.images &&
      |v.inFlightFences| == Utils.FRAMES_IN_FLIGHT
  {
  }

  // ---------------------------------------------------------------- draw_clear_frame

  const FREED_ERROR := "Use of freed Gfx state"

  /** The commands `draw_clear_frame` records: begin, a render pass clearing the image's
      framebuffer, finish. The render pass is never ended. */
  function ClearCommands(commands: Handle, renderPass: Handle, framebuffer: Handle): seq<Event> {
    [BeginPrimary(commands), BeginRenderPass(commands, renderPass, framebuffer), Finish(commands)]
  }

  /** The outcome of `draw_clear_frame` on state `v` with fence status `signaled`. */
  function DrawClearSpec(v: HalView, signaled: set<Handle>, a: FrameAnswers): FrameRun
    requires Shaped(v) && Accepts(v, a)
  {
    if v.freed then FrameRun(v.currentFrame, [], signaled, false, false, Err(FREED_ERROR))
    else
      var slot := v.currentFrame;
      var next := NextSlot(slot);
      var imageAvailable, renderFinished := v.imageAvailable[slot], v.renderFinished[slot];
      var acquire := [AcquireImage(v.swapchain, imageAvailable)];
      match a.acquired
      case None => FrameRun(next, acquire, signaled, false, false, Err(ACQUIRE_FAILED))
      case Some(image) =>
        var fence := v.inFlightFences[image];
        var status := FenceStatus(signaled, fence, a.waitOk, a.resetOk);
        var synced := acquire + FenceEvents(fence, a.waitOk);
        if !a.waitOk then FrameRun(next, synced, status, false, false, Err(WAIT_FAILED))
        else if !a.resetOk then FrameRun(next, synced, status, false, false, Err(RESET_FAILED))
        else
          var commands := v.commandBuffers[image];
          FrameRun(next,
                   synced +
                   (ClearCommands(commands, v.renderPass, v.framebuffers[image]) +
                    [Submit(commands, imageAvailable, renderFinished, fence),
                     Present(v.swapchain, image, renderFinished)]),
                   status, false, false,
                   if a.presentOk then Ok(()) else Err(PRESENT_FAILED))
  }

  /** On a freed state `draw_clear_frame` fails with the freed error and changes
      nothing, not even the slot; on a live one the slot advances by one modulo
      FRAMES_IN_FLIGHT whatever the driver answers, and the frame succeeds exactly when
      acquire, wait, reset and present all do. */
  lemma DrawClearOutcome(v: HalView, signaled: set<Handle>, a: FrameAnswers)
    requires Shaped(v) && Accepts(v, a)
    ensures var run := DrawClearSpec(v, signaled, a);
      v.freed ==> run == FrameRun(v.currentFrame, [], signaled, false, false, Err(FREED_ERROR))
    ensures var run := DrawClearSpec(v, signaled, a);
      !v.freed ==>
        run.currentFrame == (v.currentFrame + 1) % Utils.FRAMES_IN_FLIGHT &&
        (run.result.Ok? <==> a.acquired.Some? && a.waitOk && a.resetOk && a.presentOk)
  {
  }

  /** Which index picks what: the semaphores come from the slot before the increment,
      while the fence, the command buffer, the framebuffer and the presented image all
      come from the acquired image index. */
  lemma DrawClearIndexing(v: HalView, signaled: set<Handle>, a: FrameAnswers)
    requires Shaped(v) && Accepts(v, a) && !v.freed
    ensures var run := DrawClearSpec(v, signaled, a);
      var slot := v.currentFrame;
      forall e :: e in run.events ==>
        (e.AcquireImage? ==> e == AcquireImage(v.swapchain, v.imageAvailable[slot])) &&
        (a.acquired.Some? ==>
          var image := a.acquired.value;
          (e.WaitFence? ==> e.fence == v.inFlightFences[image]) &&
          (e.ResetFence? ==> e.fence == v.inFlightFences[image]) &&
          (e.BeginRenderPass? ==> e.commands == v.commandBuffers[image] && e.framebuffer == v.framebuffers[image]) &&
          (e.Submit? ==> e == Submit(v.commandBuffers[image], v.imageAvailable[slot], v.renderFinished[slot],
                                    v.inFlightFences[image])) &&
          (e.Present? ==> e == Present(v.swapchain, image, v.renderFinished[slot])))
  {
  }

  /** The fence guard within one frame: the frame's fence and recording calls are a
      prefix of "wait on the image's fence, reset it, begin its command buffer, submit
      that buffer with that fence", cut where a call failed; nothing is recorded unless
      the wait and the reset both succeeded. */
  lemma DrawClearGuard(v: HalView, signaled: set<Handle>, a: FrameAnswers)
    requires Shaped(v) && Accepts(v, a) && !v.freed && a.acquired.Some?
    ensures var image, slot := a.acquired.value, v.currentFrame;
      var g := GuardEvents(DrawClearSpec(v, signaled, a).events);
      var block := GuardBlock(v.inFlightFences[image], v.commandBuffers[image],
                              v.imageAvailable[slot], v.renderFinished[slot]);
      BlockPrefix(g, block) && (g == block <==> a.waitOk && a.resetOk)
  {
    var image, slot := a.acquired.value, v.currentFrame;
    var fence, commands := v.inFlightFences[image], v.commandBuffers[image];
    var imageAvailable, renderFinished := v.imageAvailable[slot], v.renderFinished[slot];
    var submit := Submit(commands, imageAvailable, renderFinished, fence);
    var rec := ClearCommands(commands, v.renderPass, v.framebuffers[image]);
    RecordedGuard(rec, commands, submit, Present(v.swapchain, image, renderFinished));
    FrameGuard(DrawClearSpec(v, signaled, a).events, AcquireImage(v.swapchain, imageAvailable), fence,
               a.waitOk, a.resetOk, rec + [submit, Present(v.swapchain, image, renderFinished)],
               commands, imageAvailable, renderFinished, true);
  }

  // ---------------------------------------------------------------- free

  /** The first part of `free` on a live state: wait for the device to go idle, then
      drain the fences, both semaphore vectors, the framebuffers and the image views. */
  function HalDrainTrace(v: HalView): seq<Event> {
    [WaitIdle] +
    Destroys(Fence, v.inFlightFences) +
    Destroys(Semaphore, v.renderFinished) +
    Destroys(Semaphore, v.imageAvailable) +
    Destroys(Framebuffer, v.framebuffers) +
    Destroys(ImageView, v.imageViews)
  }

  /** The rest of `free` on a live state: the command pool, the render pass and the
      swapchain, then dropping the queue group, the device and the instance. */
  function HalReleaseTrace(v: HalView): seq<Event> {
    [Destroy(CommandPool, v.commandPool), Destroy(RenderPass, v.renderPass), Destroy(Swapchain, v.swapchain),
     DropQueueGroup, DropDevice, DropInstance]
  }

  /** The calls of `free` on a live state, in order. */
  function HalFreeTrace(v: HalView): seq<Event> {
    HalDrainTrace(v) + HalReleaseTrace(v)
  }

  /** `free`: nothing when already freed; otherwise mark freed, drain every vector. */
  function HalFree(v: HalView): (HalView, seq<Event>) {
    if v.freed then (v, [])
    else (v.(freed := true, inFlightFences := [], renderFinished := [], imageAvailable := [],
             framebuffers := [], imageViews := []),
          HalFreeTrace(v))
  }

  /** `free` is idempotent: a second call issues nothing and changes nothing, and the
      freed state keeps the shape. */
  lemma HalFreeIdempotent(v: HalView)
    requires Shaped(v)
    ensures Shaped(HalFree(v).0) && HalFree(v).0.freed
    ensures HalFree(HalFree(v).0) == (HalFree(v).0, [])
  {
  }

  /** `free` releases in dependency order: fences, semaphores, framebuffers, image views,
      command pool, render pass, swapchain, then the queue group, device and instance. */
  lemma HalFreeInOrder(v: HalView)
    ensures InDependencyOrder(HalFreeTrace(v))
  {
    DrainInOrder(v);
    OrderedAppend(HalDrainTrace(v), HalReleaseTrace(v), 0, 4, 12);
  }

  lemma DrainInOrder(v: HalView)
    ensures InDependencyOrder(HalDrainTrace(v)) && RanksWithin(HalDrainTrace(v), 0, 4)
  {
    var s0 := [WaitIdle];
    var s1 := s0 + Destroys(Fence, v.inFlightFences);
    var s2 := s1 + Destroys(Semaphore, v.renderFinished);
    var s3 := s2 + Destroys(Semaphore, v.imageAvailable);
    var s4 := s3 + Destroys(Framebuffer, v.framebuffers);
    AppendDrain(s0, Fence, v.inFlightFences, 0);
    AppendDrain(s1, Semaphore, v.renderFinished, 1);
    AppendDrain(s2, Semaphore, v.imageAvailable, 2);
    AppendDrain(s3, Framebuffer, v.framebuffers, 2);
    AppendDrain(s4, ImageView, v.imageViews, 3);
  }


  /** The handles of a live state are pairwise distinct within each kind. */
  predicate OwnsDistinct(v: HalView) {
    Distinct(v.inFlightFences) && Distinct(v.renderFinished + v.imageAvailable) &&
    Distinct(v.framebuffers) && Distinct(v.imageViews)
  }

  /** `free` destroys every fence, semaphore, framebuffer and image view the state owns
      exactly once, and the command pool, render pass and swapchain once each. */
  lemma HalFreeReleasesOnce(v: HalView)
    requires OwnsDistinct(v)
    ensures var t := HalFreeTrace(v);
      (forall f :: f in v.inFlightFences ==> multiset(t)[Destroy(Fence, f)] == 1) &&
      (forall s :: s in v.renderFinished + v.imageAvailable ==> multiset(t)[Destroy(Semaphore, s)] == 1) &&
      (forall b :: b in v.framebuffers ==> multiset(t)[Destroy(Framebuffer, b)] == 1) &&
      (forall w :: w in v.imageViews ==> multiset(t)[Destroy(ImageView, w)] == 1) &&
      multiset(t)[Destroy(CommandPool, v.commandPool)] == 1 &&
      multiset(t)[Destroy(RenderPass, v.renderPass)] == 1 &&
      multiset(t)[Destroy(Swapchain, v.swapchain)] == 1
  {
    var t := HalFreeTrace(v);
    assert Drained(v, Fence) == v.inFlightFences;
    forall f | f in v.inFlightFences ensures multiset(t)[Destroy(Fence, f)] == 1 {
      DrainedOnce(v, Fence, f);
    }
    assert Drained(v, Semaphore) == v.renderFinished + v.imageAvailable;
    forall s | s in v.renderFinished + v.imageAvailable ensures multiset(t)[Destroy(Semaphore, s)] == 1 {
      DrainedOnce(v, Semaphore, s);
    }
    assert Drained(v, Framebuffer) == v.framebuffers;
    forall b | b in v.framebuffers ensures multiset(t)[Destroy(Framebuffer, b)] == 1 {
      DrainedOnce(v, Framebuffer, b);
    }
    assert Drained(v, ImageView) == v.imageViews;
    forall w | w in v.imageViews ensures multiset(t)[Destroy(ImageView, w)] == 1 {
      DrainedOnce(v, ImageView, w);
    }
    OwnedOnce(v);
  }

  /** A handle listed once in the vector drained for kind `k` is destroyed once. */
  lemma DrainedOnce(v: HalView, k: Kind, h: Handle)
    requires Distinct(Drained(v, k)) && h in Drained(v, k)
    ensures multiset(HalFreeTrace(v))[Destroy(k, h)] == 1
  {
    DistinctCount(Drained(v, k), h);
    FreeCount(v, k, h);
  }

  /** The command pool, the render pass and the swapchain are destroyed once each. */
  lemma OwnedOnce(v: HalView)
    ensures var t := HalFreeTrace(v);
      multiset(t)[Destroy(CommandPool, v.commandPool)] == 1 &&
      multiset(t)[Destroy(RenderPass, v.renderPass)] == 1 &&
      multiset(t)[Destroy(Swapchain, v.swapchain)] == 1
  {
    FreeCount(v, CommandPool, v.commandPool);
    FreeCount(v, RenderPass, v.renderPass);
    FreeCount(v, Swapchain, v.swapchain);
  }

  /** How often the rest of `free` destroys `h` as a `k`. */
  function ReleaseCount(v: HalView, k: Kind, h: Handle): nat {
    (if k == CommandPool && h == v.commandPool then 1 else 0) +
    (if k == RenderPass && h == v.renderPass then 1 else 0) +
    (if k == Swapchain && h == v.swapchain then 1 else 0)
  }

  lemma ReleaseCountIs(v: HalView, k: Kind, h: Handle)
    ensures multiset(HalReleaseTrace(v))[Destroy(k, h)] == ReleaseCount(v, k, h)
  {
  }

  /** How often `free` destroys handle `h` as a `k`. */
  lemma FreeCount(v: HalView, k: Kind, h: Handle)
    ensures multiset(HalFreeTrace(v))[Destroy(k, h)] == DrainCount(v, k, h) + ReleaseCount(v, k, h)
  {
    DrainCountIs(v, k, h);
    ReleaseCountIs(v, k, h);
  }

  /** The vector the first part of `free` drains for kind `k`; the semaphores are the
      render-finished ones and then the image-available ones. */
  function Drained(v: HalView, k: Kind): seq<Handle> {
    match k
    case Fence => v.inFlightFences
    case Semaphore => v.renderFinished + v.imageAvailable
    case Framebuffer => v.framebuffers
    case ImageView => v.imageViews
    case _ => []
  }

  /** How often the first part of `free` destroys `h` as a `k`. */
  function DrainCount(v: HalView, k: Kind, h: Handle): nat {
    (if k == Fence then multiset(v.inFlightFences)[h] else 0) +
    (if k == Semaphore then multiset(v.renderFinished + v.imageAvailable)[h] else 0) +
    (if k == Framebuffer then multiset(v.framebuffers)[h] else 0) +
    (if k == ImageView then multiset(v.imageViews)[h] else 0)
  }

  lemma DrainCountIs(v: HalView, k: Kind, h: Handle)
    ensures multiset(HalDrainTrace(v))[Destroy(k, h)] == DrainCount(v, k, h)
  {
    DestroysCount(Fence, v.inFlightFences, k, h);
    DestroysCount(Semaphore, v.renderFinished, k, h);
    DestroysCount(Semaphore, v.imageAvailable, k, h);
    DestroysCount(Framebuffer, v.framebuffers, k, h);
    DestroysCount(ImageView, v.imageViews, k, h);
  }

  // ---------------------------------------------------------------- the state object

  class HalState {
    var currentFrame: nat
    var inFlightFences: seq<Handle>
    var renderFinishedSemaphores: seq<Handle>
    var imageAvailableSemaphores: seq<Handle>
    var commandBuffers: seq<Handle>
    var framebuffers: seq<Handle>
    var imageViews: seq<Handle>
    const commandPool: Handle
    const renderPass: Handle
    const swapchain: Handle
    const device: Device
    var freed: bool

    function View(): HalView
      reads this
    {
      HalView(currentFrame, inFlightFences, renderFinishedSemaphores, imageAvailableSemaphores,
              commandBuffers, framebuffers, imageViews, commandPool, renderPass, swapchain, freed)
    }

    ghost predicate Valid()
      reads this
    {
      Shaped(View())
    }

    constructor Assemble(device: Device, v: HalView)
      ensures View() == v && this.device == device
    {
      this.device := device;
      currentFrame := v.currentFrame;
      inFlightFences := v.inFlightFences;
      renderFinishedSemaphores := v.renderFinished;
      imageAvailableSemaphores := v.imageAvailable;
      commandBuffers := v.commandBuffers;
      framebuffers := v.framebuffers;
      imageViews := v.imageViews;
      commandPool := v.commandPool;
      renderPass := v.renderPass;
      swapchain := v.swapchain;
      freed := v.freed;
    }

    /** `HalState::init` (and `new`, which calls it). The fences are created signaled. */
    static method Init(device: Device, a: SetupAnswers) returns (r: Result<HalState>)
      requires Consistent(a)
      modifies device
      ensures r.Ok? ==> HalSetup(a) == Ok(r.value.View()) && r.value.Valid() && fresh(r.value)
      ensures r.Ok? ==> r.value.device == device && forall f :: f in r.value.inFlightFences ==> f in device.signaled
      ensures r.Err? ==> HalSetup(a) == Err(r.error)
      ensures device.trace == old(device.trace) + HalSetupEvents(a)
      ensures old(device.signaled) <= device.signaled
    {
      if a.swapchain.None? {
        return Err("Could not create swapchain");
      }
      var imageAvailable := Flight(a.imageAvailable, "Could not create semaphore");
      if imageAvailable.Err? {
        return Err(imageAvailable.error);
      }
      var renderFinished := Flight(a.renderFinished, "Could not create semaphore");
      if renderFinished.Err? {
        return Err(renderFinished.error);
      }
      var fences := Flight(a.fences, "Could not create fence");
      if fences.Err? {
        return Err(fences.error);
      }
      device.CreateSignaledFences(fences.value);
      if a.renderPass.None? {
        return Err("Could not create render pass");
      }
      var views := Collect(a.imageViews, "Could not create a backbuffer image view");
      if views.Err? {
        return Err(views.error);
      }
      var framebuffers := Collect(a.framebuffers, "Could not create framebuffer");
      if framebuffers.Err? {
        return Err(framebuffers.error);
      }
      if a.commandPool.None? {
        return Err("Could not create command pool");
      }
      if a.pipeline.Err? {
        return Err(a.pipeline.error);
      }
      device.Log(CreateBuffer(DEAD_BUFFER_BYTES, VertexUsage));
      if a.vertexBuffer.buffer.None? {
        return Err("Failed to create a buffer for the vertices");
      }
      var memoryTypeId := FindMemoryType(a.memoryTypes, a.vertexBuffer.requirements.typeMask);
      if memoryTypeId.None? {
        return Err("Couldn't find a memory type to support the vertex buffer!");
      }
      var allocate := AllocateMemory(memoryTypeId.value, a.vertexBuffer.requirements.size);
      device.Log(allocate);
      AppendAssoc(old(device.trace), [CreateBuffer(DEAD_BUFFER_BYTES, VertexUsage)], [allocate]);
      if a.vertexBuffer.memory.None? {
        return Err("Couldn't allocate vertex buffer memory");
      }
      var v := HalView(0, fences.value, renderFinished.value, imageAvailable.value, a.commandBuffers,
                       framebuffers.value, views.value, a.commandPool.value, a.renderPass.value, a.swapchain.value, false);
      var state := new HalState.Assemble(device, v);
      r := Ok(state);
    }

    /** `draw_clear_frame`: refuse a freed state; otherwise take the slot's semaphores,
        advance the slot, acquire, wait on and reset the image's fence, record a clear into
        the image's command buffer, submit it with that fence, present. */
    method DrawClearFrame(a: FrameAnswers) returns (r: Result<()>)
      requires Valid() && Accepts(View(), a)
      modifies this, device
      ensures Valid()
      ensures var run := DrawClearSpec(old(View()), old(device.signaled), a);
        View() == old(View()).(currentFrame := run.currentFrame) &&
        device.trace == old(device.trace) + run.events &&
        device.signaled == run.signaled && r == run.result
    {
      if freed {
        return Err(FREED_ERROR);
      }
      var imageAvailable := imageAvailableSemaphores[currentFrame];
      var renderFinished := renderFinishedSemaphores[currentFrame];
      currentFrame := (currentFrame + 1) % Utils.FRAMES_IN_FLIGHT;
      var acquire := AcquireImage(swapchain, imageAvailable);
      device.Log(acquire);
      if a.acquired.None? {
        return Err(ACQUIRE_FAILED);
      }
      var image := a.acquired.value;
      var flightFence := inFlightFences[image];
      device.SyncFence(flightFence, a.waitOk, a.resetOk);
      AppendAssoc(old(device.trace), [acquire], FenceEvents(flightFence, a.waitOk));
      if !a.waitOk || !a.resetOk {
        return Err(if !a.waitOk then WAIT_FAILED else RESET_FAILED);
      }
      var commands := commandBuffers[image];
      var recorded := ClearCommands(commands, renderPass, framebuffers[image]) +
                      [Submit(commands, imageAvailable, renderFinished, flightFence),
                       Present(swapchain, image, renderFinished)];
      device.LogAll(recorded);
      AppendAssoc(old(device.trace), [acquire] + FenceEvents(flightFence, a.waitOk), recorded);
      r := if a.presentOk then Ok(()) else Err(PRESENT_FAILED);
    }

    /** `free`: idempotent, ordered teardown guarded by `freed`. */
    method Free()
      requires Valid()
      modifies this, device
      ensures Valid() && freed
      ensures View() == HalFree(old(View())).0
      ensures device.trace == old(device.trace) + HalFree(old(View())).1
      ensures device.signaled == old(device.signaled)
    {
      if freed {
        return;
      }
      freed := true;
      Drain();
      device.LogAll([Destroy(CommandPool, commandPool), Destroy(RenderPass, renderPass),
                     Destroy(Swapchain, swapchain), DropQueueGroup, DropDevice, DropInstance]);
    }

    /** The first part of `free`: wait for idle, then destroy and empty each vector. */
    method Drain()
      modifies this, device
      ensures View() == old(View()).(inFlightFences := [], renderFinished := [], imageAvailable := [],
                                     framebuffers := [], imageViews := [])
      ensures device.trace == old(device.trace) + HalDrainTrace(old(View()))
      ensures device.signaled == old(device.signaled)
    {
      ghost var t0 := device.trace;
      device.Log(WaitIdle);
      device.DestroyAll(Fence, inFlightFences);
      AppendAssoc(t0, [WaitIdle], Destroys(Fence, inFlightFences));
      ghost var done := [WaitIdle] + Destroys(Fence, inFlightFences);
      device.DestroyAll(Semaphore, renderFinishedSemaphores);
      AppendAssoc(t0, done, Destroys(Semaphore, renderFinishedSemaphores));
      done := done + Destroys(Semaphore, renderFinishedSemaphores);
      device.DestroyAll(Semaphore, imageAvailableSemaphores);
      AppendAssoc(t0, done, Destroys(Semaphore, imageAvailableSemaphores));
      done := done + Destroys(Semaphore, imageAvailableSemaphores);
      device.DestroyAll(Framebuffer, framebuffers);
      AppendAssoc(t0, done, Destroys(Framebuffer, framebuffers));
      done := done + Destroys(Framebuffer, framebuffers);
      device.DestroyAll(ImageView, imageViews);
      AppendAssoc(t0, done, Destroys(ImageView, imageViews));
      inFlightFences, renderFinishedSemaphores, imageAvailableSemaphores := [], [], [];
      framebuffers, imageViews := [], [];
    }

    /** `Drop`: calls `free`, which is a no-op after an explicit `free`. */
    method Drop()
      requires Valid()
      modifies this, device
      ensures Valid() && freed
      ensures View() == HalFree(old(View())).0
      ensures device.trace == old(device.trace) + HalFree(old(View())).1
    {
      Free();
    }
  }
}
