/** `GfxState`: the render state that draws the textured quad each frame. Unlike
    `HalState` it keeps a pipeline and two buffers, and it has no `freed` flag. */
module Gfx {
  import opened Wrappers
  import opened Gpu
  import opened Buffers
  import opened Frames
  import opened Setup
  import opened Teardown
  import Utils

  /** Bytes of the two uploads: `array_size(&QUAD_DATA)` and `array_size(&QUAD_INDICES)`. */
  const VERTEX_BYTES: nat := ArraySize(Utils.QUAD_DATA_LEN, Utils.F32_SIZE)
  const INDEX_BYTES: nat := ArraySize(|Utils.QuadIndices()|, Utils.U16_SIZE)

  /** The fields of a `GfxState` the core reads and writes. */
  datatype GfxView = GfxView(
    currentFrame: nat,
    inFlightFences: seq<Handle>,
    renderFinished: seq<Handle>,
    imageAvailable: seq<Handle>,
    commandBuffers: seq<Handle>,
    framebuffers: seq<Handle>,
    imageViews: seq<Handle>,
    commandPool: Handle,
    renderPass: Handle,
    swapchain: Handle,
    pipeline: Handle,
    vertices: BufferView,
    indices: BufferView)

  /** The shape `new` establishes and drawing keeps: the slot is in range, one
      synchronisation object of each kind per slot, one command buffer and framebuffer
      per image view, and buffers large enough for the quad's two arrays. */
  predicate Shaped(v: GfxView) {
    v.currentFrame < Utils.FRAMES_IN_FLIGHT &&
    |v.inFlightFences| == Utils.FRAMES_IN_FLIGHT && |v.renderFinished| == Utils.FRAMES_IN_FLIGHT &&
    |v.imageAvailable| == Utils.FRAMES_IN_FLIGHT &&
    |v.commandBuffers| == |v.imageViews| && |v.framebuffers| == |v.imageViews| &&
    VERTEX_BYTES <= v.vertices.requirements.size && INDEX_BYTES <= v.indices.requirements.size
  }

  /** The acquired image indexes the fence, command buffer and framebuffer vectors. */
  predicate Accepts(v: GfxView, a: FrameAnswers) {
    a.acquired.Some? ==> a.acquired.value < |v.commandBuffers| && a.acquired.value < |v.inFlightFences|
  }

  // ---------------------------------------------------------------- new

  /** Every step of `new` before the two buffers succeeded. */
  predicate ReachesBuffers(a: SetupAnswers)
    requires WellFormed(a)
  {
    a.swapchain.Some? && a.renderPass.Some? &&
    Collect(a.imageViews, "Could not create a backbuffer image view").Ok? &&
    Collect(a.framebuffers, "Could not create framebuffer").Ok? &&
    a.commandPool.Some? &&
    Flight(a.imageAvailable, "Could not create semaphore").Ok? &&
    Flight(a.renderFinished, "Could not create semaphore").Ok? &&
    Flight(a.fences, "Could not create fence").Ok? &&
    a.pipeline.Ok?
  }

  /** The outcome of `GfxState::new`, step by step: swapchain, render pass, one view per
      image, one framebuffer per view, the command pool, the two semaphore flights, the
      fence flight, one command buffer per framebuffer, the pipeline, then the vertex and
      index buffers. */
  function GfxSetup(a: SetupAnswers): Result<GfxView>
    requires WellFormed(a)
  {
    if a.swapchain.None? then Err("Could not create swapchain") else
    if a.renderPass.None? then Err("Could not create render pass") else
    var views :- Collect(a.imageViews, "Could not create a backbuffer image view");
    var framebuffers :- Collect(a.framebuffers, "Could not create framebuffer");
    if a.commandPool.None? then Err("Could not create command pool") else
    var imageAvailable :- Flight(a.imageAvailable, "Could not create semaphore");
    var renderFinished :- Flight(a.renderFinished, "Could not create semaphore");
    var fences :- Flight(a.fences, "Could not create fence");
    var pipeline :- a.pipeline;
    var vertices :- NewBufferSpec(a.memoryTypes, a.vertexBuffer);
    var indices :- NewBufferSpec(a.memoryTypes, a.indexBuffer);
    Ok(GfxView(0, fences, renderFinished, imageAvailable, a.commandBuffers, framebuffers, views,
               a.commandPool.value, a.renderPass.value, a.swapchain.value, pipeline, vertices, indices))
  }

  /** The logged calls of `new`: those of the two `BufferInfo::new` calls it reaches. */
  function GfxSetupEvents(a: SetupAnswers): seq<Event>
    requires WellFormed(a)
  {
    if !ReachesBuffers(a) then []
    else if NewBufferSpec(a.memoryTypes, a.vertexBuffer).Err? then
      NewBufferEvents(a.memoryTypes, VERTEX_BYTES, VertexUsage, a.vertexBuffer)
    else
      NewBufferEvents(a.memoryTypes, VERTEX_BYTES, VertexUsage, a.vertexBuffer) +
      NewBufferEvents(a.memoryTypes, INDEX_BYTES, IndexUsage, a.indexBuffer)
  }

  /** `new` succeeds exactly when every step does. It then yields one image view,
      framebuffer and command buffer per swapchain image, FRAMES_IN_FLIGHT semaphores of
      each kind and fences, slot 0, a vertex buffer created with the byte size of the
      quad's 8 floats and an index buffer created with that of its 6 `u16` indices. */
  lemma GfxSetupOutcome(a: SetupAnswers)
    requires WellFormed(a)
    ensures GfxSetup(a).Ok? <==>
      (ReachesBuffers(a) && NewBufferSpec(a.memoryTypes, a.vertexBuffer).Ok? &&
       NewBufferSpec(a.memoryTypes, a.indexBuffer).Ok?)
    ensures GfxSetup(a).Ok? ==>
      var v := GfxSetup(a).value;
      Shaped(v) && v.currentFrame == 0 &&
      |v.imageViews| == a.images && |v.framebuffers| == a.images && |v.commandBuffers| == a.images
    ensures GfxSetup(a).Ok? ==>
      GfxSetup(a).value.vertices == NewBufferSpec(a.memoryTypes, a.vertexBuffer).value &&
      GfxSetup(a).value.indices == NewBufferSpec(a.memoryTypes, a.indexBuffer).value
  {
  }

  /** A successful `new` created the vertex buffer with the 32 bytes of the quad's 8
      floats and the index buffer with the 12 bytes of its 6 `u16` indices, each followed
      by an allocation of the reported size from the lowest qualifying memory type and a
      bind at offset 0. */
  lemma GfxSetupBuffers(a: SetupAnswers)
    requires WellFormed(a) && GfxSetup(a).Ok?
    ensures var t, v := GfxSetupEvents(a), GfxSetup(a).value;
      t == [CreateBuffer(32, VertexUsage),
            AllocateMemory(v.vertices.memoryType, a.vertexBuffer.requirements.size),
            BindBufferMemory(v.vertices.memory, 0, v.vertices.buffer),
            CreateBuffer(12, IndexUsage),
            AllocateMemory(v.indices.memoryType, a.indexBuffer.requirements.size),
            BindBufferMemory(v.indices.memory, 0, v.indices.buffer)]
  {
    GfxSetupOutcome(a);
    assert GfxSetupEvents(a) ==
      NewBufferEvents(a.memoryTypes, VERTEX_BYTES, VertexUsage, a.vertexBuffer) +
      NewBufferEvents(a.memoryTypes, INDEX_BYTES, IndexUsage, a.indexBuffer);
    NewBufferOutcome(a.memoryTypes, VERTEX_BYTES, VertexUsage, a.vertexBuffer);
    NewBufferOutcome(a.memoryTypes, INDEX_BYTES, IndexUsage, a.indexBuffer);
  }

  // ---------------------------------------------------------------- draw_frame

  /** `QUAD_INDICES` as the host lays it out in memory: one `u16` per index. */
  function QuadIndexElems(): (r: seq<seq<byte>>)
    ensures |r| == |Utils.QuadIndices()| && Uniform(r, Utils.U16_SIZE)
    ensures forall i :: 0 <= i < |r| ==> FromU16Le(r[i]) == Utils.QuadIndices()[i]
  {
    var q := Utils.QuadIndices();
    var r := seq(|q|, i requires 0 <= i < |q| => U16Le(q[i]));
    assert forall i :: 0 <= i < |r| ==> FromU16Le(r[i]) == q[i] by {
      forall i | 0 <= i < |r| ensures FromU16Le(r[i]) == q[i] {
        U16RoundTrip(q[i]);
      }
    }
    r
  }

  /** After the index upload, bytes `2i .. 2i + 2` of the index buffer read back as the
      `i`-th entry of `QUAD_INDICES`. */
  lemma IndexUploadReadsBack(mem: seq<byte>, i: nat)
    requires INDEX_BYTES <= |mem| && i < |Utils.QuadIndices()|
    ensures 2 * i + 2 <= |mem|
    ensures FromU16Le(Overwrite(mem, AsBytes(QuadIndexElems()))[2 * i .. 2 * i + 2]) == Utils.QuadIndices()[i]
  {
    UploadReadsBack(mem, QuadIndexElems(), Utils.U16_SIZE, i);
  }

  /** What `draw_frame` records into `commands`: begin, bind the pipeline, the vertex
      buffer and the 16-bit index buffer, push the two mouse words, begin the render pass
      on the image's framebuffer, draw indices `0..6` once, end the pass, finish. */
  function QuadCommands(commands: Handle, v: GfxView, framebuffer: Handle): seq<Event> {
    [BeginPrimary(commands),
     BindPipeline(commands, v.pipeline),
     BindVertexBuffer(commands, v.vertices.buffer),
     BindIndexBuffer(commands, v.indices.buffer),
     PushConstants(commands, 2),
     BeginRenderPass(commands, v.renderPass, framebuffer),
     DrawIndexed(commands, 0, 6, 0, 1),
     EndRenderPass(commands),
     Finish(commands)]
  }

  /** The uploads of a frame whose fence wait and reset succeeded: the vertices, then,
      if their map succeeded, the indices. */
  function Uploads(v: GfxView, a: FrameAnswers): seq<Event> {
    LoadEvents(v.vertices, VERTEX_BYTES, a.vertexMapOk) +
    if a.vertexMapOk then LoadEvents(v.indices, INDEX_BYTES, a.indexMapOk) else []
  }

  /** Recording into the image's command buffer, submitting it with the image's fence,
      waiting on `wait` and signalling `signal`, and presenting the image. */
  function Submission(v: GfxView, image: nat, wait: Handle, signal: Handle): seq<Event>
    requires image < |v.commandBuffers| == |v.framebuffers| && image < |v.inFlightFences|
  {
    var commands := v.commandBuffers[image];
    QuadCommands(commands, v, v.framebuffers[image]) +
    [Submit(commands, wait, signal, v.inFlightFences[image]), Present(v.swapchain, image, signal)]
  }

  /** The calls after a successful fence reset: the uploads and, when both maps
      succeeded, the submission. */
  function AfterFence(v: GfxView, image: nat, wait: Handle, signal: Handle, a: FrameAnswers): seq<Event>
    requires image < |v.commandBuffers| == |v.framebuffers| && image < |v.inFlightFences|
  {
    Uploads(v, a) + if a.vertexMapOk && a.indexMapOk then Submission(v, image, wait, signal) else []
  }

  /** The result after a successful fence reset. */
  function AfterFenceResult(a: FrameAnswers): Result<()> {
    if !a.vertexMapOk || !a.indexMapOk then Err(MAP_FAILED)
    else if a.presentOk then Ok(())
    else Err(PRESENT_FAILED)
  }

  /** The outcome of `draw_frame` (the method and the free-standing function alike) on
      state `v` with fence status `signaled`. */
  function DrawFrameSpec(v: GfxView, signaled: set<Handle>, a: FrameAnswers): FrameRun
    requires Shaped(v) && Accepts(v, a)
  {
    var slot := v.currentFrame;
    var next := NextSlot(slot);
    var acquire := [AcquireImage(v.swapchain, v.imageAvailable[slot])];
    match a.acquired
    case None => FrameRun(next, acquire, signaled, false, false, Err(ACQUIRE_FAILED))
    case Some(image) =>
      var fence := v.inFlightFences[image];
      var status := FenceStatus(signaled, fence, a.waitOk, a.resetOk);
      var synced := acquire + FenceEvents(fence, a.waitOk);
      if !a.waitOk then FrameRun(next, synced, status, false, false, Err(WAIT_FAILED))
      else if !a.resetOk then FrameRun(next, synced, status, false, false, Err(RESET_FAILED))
      else
        FrameRun(next, synced + AfterFence(v, image, v.imageAvailable[slot], v.renderFinished[slot], a),
                 status, a.vertexMapOk, a.vertexMapOk && a.indexMapOk, AfterFenceResult(a))
  }

  /** The frame got past the fence and both uploads, so it records and submits. */
  predicate Records(a: FrameAnswers) {
    a.acquired.Some? && a.waitOk && a.resetOk && a.vertexMapOk && a.indexMapOk
  }

  /** The slot advances by one modulo FRAMES_IN_FLIGHT whatever the driver answers; the
      frame succeeds exactly when every step does; the vertex buffer is rewritten exactly
      when the fence was waited on and reset and its map succeeded, the index buffer
      exactly when, in addition, its own map succeeded; a frame that stops early records,
      submits and presents nothing, and one that stops before the uploads maps nothing. */
  lemma DrawFrameOutcome(v: GfxView, signaled: set<Handle>, a: FrameAnswers)
    requires Shaped(v) && Accepts(v, a)
    ensures var run := DrawFrameSpec(v, signaled, a);
      run.currentFrame == (v.currentFrame + 1) % Utils.FRAMES_IN_FLIGHT &&
      (run.result.Ok? <==> Records(a) && a.presentOk) &&
      (run.vertexLoaded <==> a.acquired.Some? && a.waitOk && a.resetOk && a.vertexMapOk) &&
      (run.indexLoaded <==> Records(a))
    ensures var run := DrawFrameSpec(v, signaled, a);
      !Records(a) ==> forall e :: e in run.events ==> !e.BeginPrimary? && !e.Submit? && !e.Present?
    ensures var run := DrawFrameSpec(v, signaled, a);
      !(a.acquired.Some? && a.waitOk && a.resetOk) ==>
        forall e :: e in run.events ==> !e.MapMemory? && !e.CopyToMapped?
  {
  }

  /** Call `e` of a frame on slot `slot` and image `image` uses the objects that index
      selects: the semaphores of the slot; the fence, command buffer and framebuffer of
      the image; the state's own two memories for the uploads. */
  predicate PickedBy(e: Event, v: GfxView, slot: nat, image: nat)
    requires Shaped(v) && slot < Utils.FRAMES_IN_FLIGHT && image < |v.commandBuffers| && image < |v.inFlightFences|
  {
    (e.AcquireImage? ==> e == AcquireImage(v.swapchain, v.imageAvailable[slot])) &&
    (e.WaitFence? ==> e.fence == v.inFlightFences[image]) &&
    (e.ResetFence? ==> e.fence == v.inFlightFences[image]) &&
    (e.CopyToMapped? ==> e.memory == v.vertices.memory || e.memory == v.indices.memory) &&
    (e.BeginPrimary? ==> e.commands == v.commandBuffers[image]) &&
    (e.BeginRenderPass? ==> e.framebuffer == v.framebuffers[image]) &&
    (e.Submit? ==> e == Submit(v.commandBuffers[image], v.imageAvailable[slot], v.renderFinished[slot],
                              v.inFlightFences[image])) &&
    (e.Present? ==> e == Present(v.swapchain, image, v.renderFinished[slot]))
  }

  /** Which index picks what: the semaphores come from the slot before the increment;
      the fence, the command buffer, the framebuffer and the presented image come from
      the acquired image index; the uploads go to the state's own two memories. */
  lemma DrawFrameIndexing(v: GfxView, signaled: set<Handle>, a: FrameAnswers)
    requires Shaped(v) && Accepts(v, a) && a.acquired.Some?
    ensures forall e :: e in DrawFrameSpec(v, signaled, a).events ==> PickedBy(e, v, v.currentFrame, a.acquired.value)
  {
    var slot, image := v.currentFrame, a.acquired.value;
    var fence := v.inFlightFences[image];
    var wait, signal := v.imageAvailable[slot], v.renderFinished[slot];
    var t := DrawFrameSpec(v, signaled, a).events;
    var synced := [AcquireImage(v.swapchain, wait)] + FenceEvents(fence, a.waitOk);
    assert forall e :: e in synced ==> PickedBy(e, v, slot, image);
    if a.waitOk && a.resetOk {
      var after := AfterFence(v, image, wait, signal, a);
      AfterFencePicked(v, slot, image, a);
      assert t == synced + after;
    } else {
      assert t == synced;
    }
  }

  /** The calls after the fence reset use the image's objects, the slot's semaphores
      and the two buffers' memories. */
  lemma AfterFencePicked(v: GfxView, slot: nat, image: nat, a: FrameAnswers)
    requires Shaped(v) && slot < Utils.FRAMES_IN_FLIGHT && image < |v.commandBuffers| && image < |v.inFlightFences|
    ensures forall e :: e in AfterFence(v, image, v.imageAvailable[slot], v.renderFinished[slot], a) ==>
      PickedBy(e, v, slot, image)
  {
    var wait, signal := v.imageAvailable[slot], v.renderFinished[slot];
    assert forall e :: e in LoadEvents(v.vertices, VERTEX_BYTES, a.vertexMapOk) ==> PickedBy(e, v, slot, image);
    assert forall e :: e in LoadEvents(v.indices, INDEX_BYTES, a.indexMapOk) ==> PickedBy(e, v, slot, image);
    if a.vertexMapOk && a.indexMapOk {
      var commands := v.commandBuffers[image];
      QuadPicked(v, slot, image);
      var rest := [Submit(commands, wait, signal, v.inFlightFences[image]), Present(v.swapchain, image, signal)];
      assert forall e :: e in rest ==> PickedBy(e, v, slot, image);
      assert Submission(v, image, wait, signal) == QuadCommands(commands, v, v.framebuffers[image]) + rest;
    }
  }

  /** The recording uses the image's command buffer and framebuffer. */
  lemma QuadPicked(v: GfxView, slot: nat, image: nat)
    requires Shaped(v) && slot < Utils.FRAMES_IN_FLIGHT && image < |v.commandBuffers| && image < |v.inFlightFences|
    ensures forall e :: e in QuadCommands(v.commandBuffers[image], v, v.framebuffers[image]) ==>
      PickedBy(e, v, slot, image)
  {
    var q := QuadCommands(v.commandBuffers[image], v, v.framebuffers[image]);
    forall e | e in q
      ensures PickedBy(e, v, slot, image)
    {
      var i :| 0 <= i < |q| && q[i] == e;
    }
  }

  /** The calls of a recorded frame up to the unmap of the index memory. */
  function RecordedHead(v: GfxView, a: FrameAnswers): seq<Event>
    requires Shaped(v) && Accepts(v, a) && Records(a)
  {
    var fence := v.inFlightFences[a.acquired.value];
    [AcquireImage(v.swapchain, v.imageAvailable[v.currentFrame])] + FenceEvents(fence, true) + Uploads(v, a)
  }

  /** A recorded frame is its head followed by the submission. */
  lemma RecordedSplit(v: GfxView, signaled: set<Handle>, a: FrameAnswers)
    requires Shaped(v) && Accepts(v, a) && Records(a)
    ensures var image, slot := a.acquired.value, v.currentFrame;
      DrawFrameSpec(v, signaled, a).events ==
        RecordedHead(v, a) + Submission(v, image, v.imageAvailable[slot], v.renderFinished[slot])
  {
    var image, slot := a.acquired.value, v.currentFrame;
    var synced := [AcquireImage(v.swapchain, v.imageAvailable[slot])] + FenceEvents(v.inFlightFences[image], true);
    AppendAssoc(synced, Uploads(v, a), Submission(v, image, v.imageAvailable[slot], v.renderFinished[slot]));
  }

  /** Every copy in `head` comes before every begin in `tail` when `head` has no begin
      and `tail` no copy. */
  lemma CopiesBeforeBegins(head: seq<Event>, tail: seq<Event>)
    requires forall e :: e in head ==> !e.BeginPrimary?
    requires forall e :: e in tail ==> !e.CopyToMapped?
    ensures var t := head + tail;
      forall p, q :: 0 <= p < |t| && 0 <= q < |t| && t[p].CopyToMapped? && t[q].BeginPrimary? ==> p < q
  {
    var t := head + tail;
    forall p, q | 0 <= p < |t| && 0 <= q < |t| && t[p].CopyToMapped? && t[q].BeginPrimary?
      ensures p < q
    {
      assert p < |head| <= q;
    }
  }

  /** `t` waits on and resets the image's fence at `w` and `r`, copies the vertices at
      `pv` and the indices at `pi`, and begins the image's command buffer at `pb`; the
      copies write exactly the byte sizes of the two arrays at offset 0. */
  ghost predicate UploadsAt(t: seq<Event>, v: GfxView, image: nat, w: nat, r: nat, pv: nat, pi: nat, pb: nat)
    requires image < |v.inFlightFences| && image < |v.commandBuffers|
  {
    w < r < pv < pi < pb < |t| &&
    t[w] == WaitFence(v.inFlightFences[image]) && t[r] == ResetFence(v.inFlightFences[image]) &&
    t[pv] == CopyToMapped(v.vertices.memory, 0, VERTEX_BYTES) &&
    t[pi] == CopyToMapped(v.indices.memory, 0, INDEX_BYTES) &&
    t[pb] == BeginPrimary(v.commandBuffers[image])
  }

  /** `t` waits on and resets the image's fence, then copies the vertices, then the
      indices, and then begins the image's command buffer. */
  ghost predicate UploadsBeforeRecording(t: seq<Event>, v: GfxView, image: nat)
    requires image < |v.inFlightFences| && image < |v.commandBuffers|
  {
    exists w, r, pv, pi, pb :: UploadsAt(t, v, image, w, r, pv, pi, pb)
  }

  /** The order of fence calls, copies and begin in a recorded frame's calls `t`. */
  lemma RecordedOrder(t: seq<Event>, v: GfxView, a: FrameAnswers)
    requires Shaped(v) && Accepts(v, a) && Records(a)
    requires t == RecordedHead(v, a) +
      Submission(v, a.acquired.value, v.imageAvailable[v.currentFrame], v.renderFinished[v.currentFrame])
    ensures UploadsBeforeRecording(t, v, a.acquired.value)
    ensures forall p, q :: 0 <= p < |t| && 0 <= q < |t| && t[p].CopyToMapped? && t[q].BeginPrimary? ==> p < q
  {
    var image, slot := a.acquired.value, v.currentFrame;
    var head, tail := RecordedHead(v, a), Submission(v, image, v.imageAvailable[slot], v.renderFinished[slot]);
    assert |head| == 9;
    assert t[1] == head[1] == WaitFence(v.inFlightFences[image]);
    assert t[2] == head[2] == ResetFence(v.inFlightFences[image]);
    assert t[4] == head[4] == CopyToMapped(v.vertices.memory, 0, VERTEX_BYTES);
    assert t[7] == head[7] == CopyToMapped(v.indices.memory, 0, INDEX_BYTES);
    assert t[9] == tail[0] == BeginPrimary(v.commandBuffers[image]);
    assert UploadsAt(t, v, image, 1, 2, 4, 7, 9);
    CopiesBeforeBegins(head, tail);
  }

  /** In a recorded frame the image's fence is waited on and reset, then the vertices
      are copied, then the indices, and only then is the command buffer begun; every copy
      comes before every begin. */
  lemma DrawFrameUploadsFirst(v: GfxView, signaled: set<Handle>, a: FrameAnswers)
    requires Shaped(v) && Accepts(v, a) && Records(a)
    ensures UploadsBeforeRecording(DrawFrameSpec(v, signaled, a).events, v, a.acquired.value)
    ensures var t := DrawFrameSpec(v, signaled, a).events;
      forall p, q :: 0 <= p < |t| && 0 <= q < |t| && t[p].CopyToMapped? && t[q].BeginPrimary? ==> p < q
  {
    RecordedSplit(v, signaled, a);
    RecordedOrder(DrawFrameSpec(v, signaled, a).events, v, a);
  }

  /** The submission's only indexed draw is its seventh call. */
  lemma SubmissionDrawsOnce(v: GfxView, image: nat, wait: Handle, signal: Handle)
    requires image < |v.commandBuffers| == |v.framebuffers| && image < |v.inFlightFences|
    ensures var s := Submission(v, image, wait, signal);
      |s| == 11 && forall j :: 0 <= j < |s| && s[j].DrawIndexed? ==> j == 6
  {
  }

  /** A value found at position `d` only occurs once. */
  lemma OccursOnce<T>(t: seq<T>, d: nat, x: T)
    requires d < |t| && t[d] == x
    requires forall i :: 0 <= i < |t| && t[i] == x ==> i == d
    ensures multiset(t)[x] == 1
  {
    var front, back := t[..d], t[d + 1..];
    assert t == front + [x] + back;
    forall j | 0 <= j < |front|
      ensures front[j] != x
    {
      assert front[j] == t[j];
    }
    forall j | 0 <= j < |back|
      ensures back[j] != x
    {
      assert back[j] == t[d + 1 + j];
    }
    assert x !in multiset(front) && x !in multiset(back);
  }

  /** `t` begins the image's command buffer at `b`, then binds the pipeline, the vertex
      buffer and the index buffer and pushes two words, begins the render pass on the
      image's framebuffer at `r`, draws `quad` at `d`, its only indexed draw, and ends the
      pass at `e`. */
  ghost predicate DrawsAt(t: seq<Event>, v: GfxView, image: nat, quad: Event, b: nat, r: nat, d: nat, e: nat)
    requires image < |v.commandBuffers| == |v.framebuffers|
  {
    var commands := v.commandBuffers[image];
    b < r < d < e < |t| &&
    t[b] == BeginPrimary(commands) &&
    BindPipeline(commands, v.pipeline) in t[b + 1..r] &&
    BindVertexBuffer(commands, v.vertices.buffer) in t[b + 1..r] &&
    BindIndexBuffer(commands, v.indices.buffer) in t[b + 1..r] &&
    PushConstants(commands, 2) in t[b + 1..r] &&
    t[r] == BeginRenderPass(commands, v.renderPass, v.framebuffers[image]) &&
    t[d] == quad && t[e] == EndRenderPass(commands) &&
    forall i :: 0 <= i < |t| && t[i].DrawIndexed? ==> i == d
  }

  /** `t` begins the image's command buffer, binds the pipeline and both buffers and pushes
      two words, then draws `quad` once, inside a render pass on the image's framebuffer. */
  ghost predicate DrawsOnceInPass(t: seq<Event>, v: GfxView, image: nat, quad: Event)
    requires image < |v.commandBuffers| == |v.framebuffers|
  {
    exists b, r, d, e :: DrawsAt(t, v, image, quad, b, r, d, e)
  }

  /** Calls `t` made of nine calls without a draw followed by the submission draw only
      at the submission's seventh call. */
  lemma DrawOnlyAt(t: seq<Event>, head: seq<Event>, v: GfxView, image: nat, wait: Handle, signal: Handle)
    requires image < |v.commandBuffers| == |v.framebuffers| && image < |v.inFlightFences|
    requires |head| == 9 && forall e :: e in head ==> !e.DrawIndexed?
    requires t == head + Submission(v, image, wait, signal)
    ensures forall i :: 0 <= i < |t| && t[i].DrawIndexed? ==> i == 15
  {
    var tail := Submission(v, image, wait, signal);
    SubmissionDrawsOnce(v, image, wait, signal);
    forall i | 0 <= i < |t| && t[i].DrawIndexed?
      ensures i == 15
    {
      if i >= 9 {
        assert t[i] == tail[i - 9];
      }
    }
  }

  /** Where calls `t` made of nine calls followed by the submission begin, bind, push,
      draw and end the pass, given that their only draw is at `15`. */
  lemma SubmittedLayout(t: seq<Event>, head: seq<Event>, v: GfxView, image: nat, wait: Handle, signal: Handle)
    requires image < |v.commandBuffers| == |v.framebuffers| && image < |v.inFlightFences|
    requires |head| == 9
    requires t == head + Submission(v, image, wait, signal)
    requires forall i :: 0 <= i < |t| && t[i].DrawIndexed? ==> i == 15
    ensures DrawsAt(t, v, image, DrawIndexed(v.commandBuffers[image], 0, |Utils.QuadIndices()|, 0, 1), 9, 14, 15, 16)
  {
    var tail := Submission(v, image, wait, signal);
    var commands := v.commandBuffers[image];
    assert t[9] == tail[0] && t[14] == tail[5] && t[15] == tail[6] && t[16] == tail[7];
    assert t[10..14] == tail[1..5] == [BindPipeline(commands, v.pipeline), BindVertexBuffer(commands, v.vertices.buffer),
                                       BindIndexBuffer(commands, v.indices.buffer), PushConstants(commands, 2)];
  }

  /** The draw in calls `t` made of nine calls without a draw followed by the submission. */
  lemma SubmittedDraw(t: seq<Event>, head: seq<Event>, v: GfxView, image: nat, wait: Handle, signal: Handle)
    requires image < |v.commandBuffers| == |v.framebuffers| && image < |v.inFlightFences|
    requires |head| == 9 && forall e :: e in head ==> !e.DrawIndexed?
    requires t == head + Submission(v, image, wait, signal)
    ensures var quad := DrawIndexed(v.commandBuffers[image], 0, |Utils.QuadIndices()|, 0, 1);
      DrawsOnceInPass(t, v, image, quad) && multiset(t)[quad] == 1 &&
      forall e :: e in t && e.DrawIndexed? ==> e == quad
  {
    var quad := DrawIndexed(v.commandBuffers[image], 0, |Utils.QuadIndices()|, 0, 1);
    DrawOnlyAt(t, head, v, image, wait, signal);
    SubmittedLayout(t, head, v, image, wait, signal);
    OccursOnce(t, 15, quad);
  }

  /** The draw in a recorded frame's calls `t`. */
  lemma RecordedDraw(t: seq<Event>, v: GfxView, a: FrameAnswers)
    requires Shaped(v) && Accepts(v, a) && Records(a)
    requires t == RecordedHead(v, a) +
      Submission(v, a.acquired.value, v.imageAvailable[v.currentFrame], v.renderFinished[v.currentFrame])
    ensures var quad := DrawIndexed(v.commandBuffers[a.acquired.value], 0, |Utils.QuadIndices()|, 0, 1);
      DrawsOnceInPass(t, v, a.acquired.value, quad) && multiset(t)[quad] == 1 &&
      forall e :: e in t && e.DrawIndexed? ==> e == quad
  {
    var head := RecordedHead(v, a);
    assert |head| == 9;
    assert forall e :: e in head ==> !e.DrawIndexed?;
    SubmittedDraw(t, head, v, a.acquired.value, v.imageAvailable[v.currentFrame], v.renderFinished[v.currentFrame]);
  }

  /** A recorded frame draws once: the only indexed draw occurs exactly once, covers
      indices `0..6`, which is all of `QUAD_INDICES` and exactly the bytes uploaded to the
      index buffer, with one instance. It follows the begin of the command buffer, the
      binds of the pipeline and both buffers and the push of the two mouse words, and lies
      inside a render pass begun on the image's framebuffer and then ended. */
  lemma DrawFrameDrawsQuad(v: GfxView, signaled: set<Handle>, a: FrameAnswers)
    requires Shaped(v) && Accepts(v, a) && Records(a)
    ensures var t := DrawFrameSpec(v, signaled, a).events;
      var quad := DrawIndexed(v.commandBuffers[a.acquired.value], 0, |Utils.QuadIndices()|, 0, 1);
      DrawsOnceInPass(t, v, a.acquired.value, quad) && multiset(t)[quad] == 1 &&
      forall e :: e in t && e.DrawIndexed? ==> e == quad
    ensures ArraySize(|Utils.QuadIndices()|, Utils.U16_SIZE) == INDEX_BYTES
  {
    RecordedSplit(v, signaled, a);
    RecordedDraw(DrawFrameSpec(v, signaled, a).events, v, a);
  }

  /** The fence guard within one frame: its guard calls are a prefix of "wait on the
      image's fence, reset it, begin its command buffer, submit that buffer with that
      fence", and the frame gets past the reset only if the wait succeeded. */
  lemma DrawFrameGuard(v: GfxView, signaled: set<Handle>, a: FrameAnswers)
    requires Shaped(v) && Accepts(v, a) && a.acquired.Some?
    ensures var image, slot := a.acquired.value, v.currentFrame;
      var g := GuardEvents(DrawFrameSpec(v, signaled, a).events);
      var block := GuardBlock(v.inFlightFences[image], v.commandBuffers[image],
                              v.imageAvailable[slot], v.renderFinished[slot]);
      BlockPrefix(g, block) && (g == block <==> Records(a))
  {
    var image, slot := a.acquired.value, v.currentFrame;
    var wait, signal := v.imageAvailable[slot], v.renderFinished[slot];
    var after := AfterFence(v, image, wait, signal, a);
    AfterFenceGuard(v, image, wait, signal, a);
    FrameGuard(DrawFrameSpec(v, signaled, a).events, AcquireImage(v.swapchain, wait), v.inFlightFences[image],
               a.waitOk, a.resetOk, after, v.commandBuffers[image], wait, signal, a.vertexMapOk && a.indexMapOk);
  }

  /** After the fence reset, the only guard calls are the begin of the image's command
      buffer and its submission with the image's fence, and only when both maps
      succeeded. */
  lemma AfterFenceGuard(v: GfxView, image: nat, wait: Handle, signal: Handle, a: FrameAnswers)
    requires image < |v.commandBuffers| == |v.framebuffers| && image < |v.inFlightFences|
    ensures GuardEvents(AfterFence(v, image, wait, signal, a)) ==
      if a.vertexMapOk && a.indexMapOk
      then [BeginPrimary(v.commandBuffers[image]), Submit(v.commandBuffers[image], wait, signal, v.inFlightFences[image])]
      else []
  {
    var uploads := Uploads(v, a);
    GuardEventsNone(uploads);
    if a.vertexMapOk && a.indexMapOk {
      var commands := v.commandBuffers[image];
      var rec := QuadCommands(commands, v, v.framebuffers[image]);
      RecordedGuard(rec, commands, Submit(commands, wait, signal, v.inFlightFences[image]),
                    Present(v.swapchain, image, signal));
      GuardEventsAppend(uploads, Submission(v, image, wait, signal));
    } else {
      assert AfterFence(v, image, wait, signal, a) == uploads;
    }
  }

  /** Frames drawn back to back with the given answers: the state after them, the calls
      they issued, and the fence status they leave. */
  function RunFrames(v: GfxView, signaled: set<Handle>, answers: seq<FrameAnswers>): (GfxView, seq<Event>, set<Handle>)
    requires Shaped(v) && forall a :: a in answers ==> Accepts(v, a)
    decreases |answers|
  {
    if answers == [] then (v, [], signaled)
    else
      var run := DrawFrameSpec(v, signaled, answers[0]);
      var w := v.(currentFrame := run.currentFrame);
      AcceptsLater(v, run.currentFrame, answers);
      var rest := RunFrames(w, run.signaled, answers[1..]);
      (rest.0, run.events + rest.1, rest.2)
  }

  /** Whatever happens, a frame moves the slot on by one. */
  lemma DrawFrameSlot(v: GfxView, signaled: set<Handle>, a: FrameAnswers)
    requires Shaped(v) && Accepts(v, a)
    ensures DrawFrameSpec(v, signaled, a).currentFrame == NextSlot(v.currentFrame)
  {
  }

  /** The answers still fit once the slot has moved on. */
  lemma AcceptsLater(v: GfxView, slot: nat, answers: seq<FrameAnswers>)
    requires |answers| > 0 && forall a :: a in answers ==> Accepts(v, a)
    ensures forall a :: a in answers[1..] ==> Accepts(v.(currentFrame := slot), a)
  {
    forall a | a in answers[1..] ensures Accepts(v.(currentFrame := slot), a) {
      assert a in answers;
      assert Accepts(v, a);
    }
  }

  /** After `n` frames, failed or not, only the slot has changed, and it is the slot `n`
      steps on. */
  lemma {:induction false} RunFramesRotate(v: GfxView, signaled: set<Handle>, answers: seq<FrameAnswers>)
    requires Shaped(v) && forall a :: a in answers ==> Accepts(v, a)
    ensures RunFrames(v, signaled, answers).0 == v.(currentFrame := SlotAfter(v.currentFrame, |answers|))
    decreases |answers|
  {
    if answers != [] {
      var next := NextSlot(v.currentFrame);
      var w := v.(currentFrame := next);
      AcceptsLater(v, next, answers);
      DrawFrameSlot(v, signaled, answers[0]);
      RunFramesRotate(w, DrawFrameSpec(v, signaled, answers[0]).signaled, answers[1..]);
      SlotAfterFront(v.currentFrame, |answers| - 1);
    }
  }

  /** Over any run of frames, every command buffer is begun only right after a wait on
      and a reset of its image's fence, and then submitted with that fence; this needs
      the command buffers to be distinct handles. */
  lemma {:induction false} RunFramesGuarded(v: GfxView, signaled: set<Handle>, answers: seq<FrameAnswers>)
    requires Shaped(v) && forall a :: a in answers ==> Accepts(v, a)
    requires Distinct(v.commandBuffers)
    ensures FenceGuarded(GuardEvents(RunFrames(v, signaled, answers).1), v.inFlightFences, v.commandBuffers)
    decreases |answers|
  {
    if answers == [] {
      GuardedEmpty(v.inFlightFences, v.commandBuffers);
    } else {
      var a := answers[0];
      var run := DrawFrameSpec(v, signaled, a);
      var w := v.(currentFrame := run.currentFrame);
      AcceptsLater(v, run.currentFrame, answers);
      var rest := RunFrames(w, run.signaled, answers[1..]);
      RunFramesGuarded(w, run.signaled, answers[1..]);
      GuardEventsAppend(run.events, rest.1);
      if a.acquired.Some? {
        DrawFrameGuard(v, signaled, a);
        GuardedPrepend(GuardEvents(run.events), GuardEvents(rest.1), v.inFlightFences, v.commandBuffers,
                       a.acquired.value, v.imageAvailable[v.currentFrame], v.renderFinished[v.currentFrame]);
      } else {
        GuardEventsOne(run.events[0]);
        assert GuardEvents(run.events) + GuardEvents(rest.1) == GuardEvents(rest.1);
      }
    }
  }

  // ---------------------------------------------------------------- free

  /** The first part of `free`: wait for idle, then drain the fences, both semaphore
      vectors, the framebuffers and the image views. */
  function GfxDrainTrace(v: GfxView): seq<Event> {
    [WaitIdle] +
    Destroys(Fence, v.inFlightFences) +
    Destroys(Semaphore, v.renderFinished) +
    Destroys(Semaphore, v.imageAvailable) +
    Destroys(Framebuffer, v.framebuffers) +
    Destroys(ImageView, v.imageViews)
  }

  /** The rest of `free`: the two buffers, the pipeline, the command pool, the render
      pass and the swapchain. */
  function GfxReleaseTrace(v: GfxView): seq<Event> {
    FreeEvents(v.vertices) + FreeEvents(v.indices) +
    [Destroy(Pipeline, v.pipeline), Destroy(CommandPool, v.commandPool),
     Destroy(RenderPass, v.renderPass), Destroy(Swapchain, v.swapchain)]
  }

  /** One call of `free`: the view it leaves and the calls it issues. There is no guard,
      so a second call drains nothing but releases the buffers, pipeline, pool, render
      pass and swapchain again. */
  function GfxFree(v: GfxView): (GfxView, seq<Event>) {
    (v.(inFlightFences := [], renderFinished := [], imageAvailable := [], framebuffers := [], imageViews := []),
     GfxDrainTrace(v) + GfxReleaseTrace(v))
  }

  lemma GfxDrainInOrder(v: GfxView)
    ensures InDependencyOrder(GfxDrainTrace(v)) && RanksWithin(GfxDrainTrace(v), 0, 4)
  {
    var s0 := [WaitIdle];
    var s1 := s0 + Destroys(Fence, v.inFlightFences);
    var s2 := s1 + Destroys(Semaphore, v.renderFinished);
    var s3 := s2 + Destroys(Semaphore, v.imageAvailable);
    var s4 := s3 + Destroys(Framebuffer, v.framebuffers);
    AppendDrain(s0, Fence, v.inFlightFences, 0);
    AppendDrain(s1, Semaphore, v.renderFinished, 1);
    AppendDrain(s2, Semaphore, v.imageAvailable, 2);
    AppendDrain(s3, Framebuffer, v.framebuffers, 2);
    AppendDrain(s4, ImageView, v.imageViews, 3);
  }

  /** `free` releases in dependency order: fences, semaphores, framebuffers, image views,
      each buffer before its memory, the pipeline, the command pool, the render pass and
      last the swapchain. The index memory is told apart from the vertex memory only when
      the two differ. */
  lemma GfxFreeInOrder(v: GfxView)
    ensures InDependencyOrder(GfxFree(v).1)
    ensures forall p :: 0 <= p < |GfxFree(v).1| && GfxFree(v).1[p] == Destroy(Memory, v.vertices.memory) ==>
      exists q :: 0 <= q < p && GfxFree(v).1[q] == Destroy(Kind.Buffer, v.vertices.buffer)
    ensures v.indices.memory != v.vertices.memory ==>
      forall p :: 0 <= p < |GfxFree(v).1| && GfxFree(v).1[p] == Destroy(Memory, v.indices.memory) ==>
        exists q :: 0 <= q < p && GfxFree(v).1[q] == Destroy(Kind.Buffer, v.indices.buffer)
  {
    var d := GfxDrainTrace(v);
    var r := GfxReleaseTrace(v);
    GfxDrainInOrder(v);
    assert InDependencyOrder(r) && RanksWithin(r, 4, 9) by {
      assert forall i :: 0 <= i < |r| ==> Rank(r[i]) == [5, 5, 5, 5, 6, 7, 8, 9][i];
    }
    OrderedAppend(d, r, 0, 4, 9);
    BuffersBeforeMemories(GfxFree(v).1, d, v);
  }

  /** In the drain calls `d` followed by the release calls, each buffer's memory is freed
      only after that buffer is destroyed. */
  lemma BuffersBeforeMemories(t: seq<Event>, d: seq<Event>, v: GfxView)
    requires t == d + GfxReleaseTrace(v) && RanksWithin(d, 0, 4)
    ensures forall p :: 0 <= p < |t| && t[p] == Destroy(Memory, v.vertices.memory) ==>
      exists q :: 0 <= q < p && t[q] == Destroy(Kind.Buffer, v.vertices.buffer)
    ensures v.indices.memory != v.vertices.memory ==>
      forall p :: 0 <= p < |t| && t[p] == Destroy(Memory, v.indices.memory) ==>
        exists q :: 0 <= q < p && t[q] == Destroy(Kind.Buffer, v.indices.buffer)
  {
    forall p | 0 <= p < |t| && t[p] == Destroy(Memory, v.vertices.memory)
      ensures exists q :: 0 <= q < p && t[q] == Destroy(Kind.Buffer, v.vertices.buffer)
    {
      assert t[|d|] == Destroy(Kind.Buffer, v.vertices.buffer);
      assert p != |d|;
      assert p >= |d|;
    }
    if v.indices.memory != v.vertices.memory {
      forall p | 0 <= p < |t| && t[p] == Destroy(Memory, v.indices.memory)
        ensures exists q :: 0 <= q < p && t[q] == Destroy(Kind.Buffer, v.indices.buffer)
      {
        assert t[|d| + 2] == Destroy(Kind.Buffer, v.indices.buffer);
        assert p >= |d|;
        assert p == |d| + 3;
      }
    }
  }

  /** The handles a live state owns are pairwise distinct within each kind. */
  predicate OwnsDistinct(v: GfxView) {
    Distinct(v.inFlightFences) && Distinct(v.renderFinished + v.imageAvailable) &&
    Distinct(v.framebuffers) && Distinct(v.imageViews) &&
    v.vertices.buffer != v.indices.buffer && v.vertices.memory != v.indices.memory
  }

  /** The vector the first part of `free` drains for kind `k`; the semaphores are the
      render-finished ones and then the image-available ones. */
  function Drained(v: GfxView, k: Kind): seq<Handle> {
    match k
    case Fence => v.inFlightFences
    case Semaphore => v.renderFinished + v.imageAvailable
    case Framebuffer => v.framebuffers
    case ImageView => v.imageViews
    case _ => []
  }

  /** How often the first part of `free` destroys `h` as a `k`. */
  function DrainCount(v: GfxView, k: Kind, h: Handle): nat {
    (if k == Fence then multiset(v.inFlightFences)[h] else 0) +
    (if k == Semaphore then multiset(v.renderFinished + v.imageAvailable)[h] else 0) +
    (if k == Framebuffer then multiset(v.framebuffers)[h] else 0) +
    (if k == ImageView then multiset(v.imageViews)[h] else 0)
  }

  /** How often the rest of `free` destroys `h` as a `k`. */
  function ReleaseCount(v: GfxView, k: Kind, h: Handle): nat {
    (if k == Kind.Buffer && h == v.vertices.buffer then 1 else 0) +
    (if k == Kind.Buffer && h == v.indices.buffer then 1 else 0) +
    (if k == Memory && h == v.vertices.memory then 1 else 0) +
    (if k == Memory && h == v.indices.memory then 1 else 0) +
    (if k == Pipeline && h == v.pipeline then 1 else 0) +
    (if k == CommandPool && h == v.commandPool then 1 else 0) +
    (if k == RenderPass && h == v.renderPass then 1 else 0) +
    (if k == Swapchain && h == v.swapchain then 1 else 0)
  }

  lemma DrainCountIs(v: GfxView, k: Kind, h: Handle)
    ensures multiset(GfxDrainTrace(v))[Destroy(k, h)] == DrainCount(v, k, h)
  {
    DestroysCount(Fence, v.inFlightFences, k, h);
    DestroysCount(Semaphore, v.renderFinished, k, h);
    DestroysCount(Semaphore, v.imageAvailable, k, h);
    DestroysCount(Framebuffer, v.framebuffers, k, h);
    DestroysCount(ImageView, v.imageViews, k, h);
  }

  lemma ReleaseCountIs(v: GfxView, k: Kind, h: Handle)
    ensures multiset(GfxReleaseTrace(v))[Destroy(k, h)] == ReleaseCount(v, k, h)
  {
    FreeEventsCount(v.vertices, k, h);
    FreeEventsCount(v.indices, k, h);
  }

  /** Freeing one buffer destroys its buffer and its memory once each. */
  lemma FreeEventsCount(b: BufferView, k: Kind, h: Handle)
    ensures multiset(FreeEvents(b))[Destroy(k, h)] ==
      (if k == Kind.Buffer && h == b.buffer then 1 else 0) + (if k == Memory && h == b.memory then 1 else 0)
  {
  }

  lemma FreeCount(v: GfxView, k: Kind, h: Handle)
    ensures multiset(GfxFree(v).1)[Destroy(k, h)] == DrainCount(v, k, h) + ReleaseCount(v, k, h)
  {
    DrainCountIs(v, k, h);
    ReleaseCountIs(v, k, h);
  }

  /** A handle listed once in the vector drained for kind `k` is destroyed once. */
  lemma DrainedOnce(v: GfxView, k: Kind, h: Handle)
    requires Distinct(Drained(v, k)) && h in Drained(v, k)
    ensures multiset(GfxFree(v).1)[Destroy(k, h)] == 1
  {
    DistinctCount(Drained(v, k), h);
    FreeCount(v, k, h);
  }

  /** One `free` destroys everything the state owns exactly once: each fence, semaphore,
      framebuffer and image view, both buffers and both memories, the pipeline, the
      command pool, the render pass and the swapchain. */
  lemma GfxFreeReleasesOnce(v: GfxView)
    requires OwnsDistinct(v)
    ensures var t := GfxFree(v).1;
      (forall f :: f in v.inFlightFences ==> multiset(t)[Destroy(Fence, f)] == 1) &&
      (forall s :: s in v.renderFinished + v.imageAvailable ==> multiset(t)[Destroy(Semaphore, s)] == 1) &&
      (forall b :: b in v.framebuffers ==> multiset(t)[Destroy(Framebuffer, b)] == 1) &&
      (forall w :: w in v.imageViews ==> multiset(t)[Destroy(ImageView, w)] == 1) &&
      multiset(t)[Destroy(Kind.Buffer, v.vertices.buffer)] == 1 && multiset(t)[Destroy(Memory, v.vertices.memory)] == 1 &&
      multiset(t)[Destroy(Kind.Buffer, v.indices.buffer)] == 1 && multiset(t)[Destroy(Memory, v.indices.memory)] == 1 &&
      multiset(t)[Destroy(Pipeline, v.pipeline)] == 1 &&
      multiset(t)[Destroy(CommandPool, v.commandPool)] == 1 &&
      multiset(t)[Destroy(RenderPass, v.renderPass)] == 1 &&
      multiset(t)[Destroy(Swapchain, v.swapchain)] == 1
  {
    var t := GfxFree(v).1;
    assert Drained(v, Fence) == v.inFlightFences;
    forall f | f in v.inFlightFences ensures multiset(t)[Destroy(Fence, f)] == 1 {
      DrainedOnce(v, Fence, f);
    }
    assert Drained(v, Semaphore) == v.renderFinished + v.imageAvailable;
    forall s | s in v.renderFinished + v.imageAvailable ensures multiset(t)[Destroy(Semaphore, s)] == 1 {
      DrainedOnce(v, Semaphore, s);
    }
    assert Drained(v, Framebuffer) == v.framebuffers;
    forall b | b in v.framebuffers ensures multiset(t)[Destroy(Framebuffer, b)] == 1 {
      DrainedOnce(v, Framebuffer, b);
    }
    assert Drained(v, ImageView) == v.imageViews;
    forall w | w in v.imageViews ensures multiset(t)[Destroy(ImageView, w)] == 1 {
      DrainedOnce(v, ImageView, w);
    }
    OwnedOnce(v);
  }

  /** The buffers, memories, pipeline, pool, render pass and swapchain are each
      destroyed once by one `free`. */
  lemma OwnedOnce(v: GfxView)
    requires v.vertices.buffer != v.indices.buffer && v.vertices.memory != v.indices.memory
    ensures var t := GfxFree(v).1;
      multiset(t)[Destroy(Kind.Buffer, v.vertices.buffer)] == 1 && multiset(t)[Destroy(Memory, v.vertices.memory)] == 1 &&
      multiset(t)[Destroy(Kind.Buffer, v.indices.buffer)] == 1 && multiset(t)[Destroy(Memory, v.indices.memory)] == 1 &&
      multiset(t)[Destroy(Pipeline, v.pipeline)] == 1 &&
      multiset(t)[Destroy(CommandPool, v.commandPool)] == 1 &&
      multiset(t)[Destroy(RenderPass, v.renderPass)] == 1 &&
      multiset(t)[Destroy(Swapchain, v.swapchain)] == 1
  {
    FreeCount(v, Kind.Buffer, v.vertices.buffer);
    FreeCount(v, Memory, v.vertices.memory);
    FreeCount(v, Kind.Buffer, v.indices.buffer);
    FreeCount(v, Memory, v.indices.memory);
    FreeCount(v, Pipeline, v.pipeline);
    FreeCount(v, CommandPool, v.commandPool);
    FreeCount(v, RenderPass, v.renderPass);
    FreeCount(v, Swapchain, v.swapchain);
  }

  /** `free` followed by `Drop`, as the resize path does: the second call drains nothing
      new, but the swapchain, the render pass, the command pool, the pipeline and both
      buffers and memories are destroyed a second time. */
  lemma FreeTwiceRepeats(v: GfxView)
    ensures var first := GfxFree(v);
      var t := first.1 + GfxFree(first.0).1;
      multiset(t)[Destroy(Swapchain, v.swapchain)] >= 2 &&
      multiset(t)[Destroy(RenderPass, v.renderPass)] >= 2 &&
      multiset(t)[Destroy(CommandPool, v.commandPool)] >= 2 &&
      multiset(t)[Destroy(Pipeline, v.pipeline)] >= 2 &&
      multiset(t)[Destroy(Kind.Buffer, v.vertices.buffer)] >= 2 &&
      multiset(t)[Destroy(Memory, v.vertices.memory)] >= 2 &&
      multiset(t)[Destroy(Kind.Buffer, v.indices.buffer)] >= 2 &&
      multiset(t)[Destroy(Memory, v.indices.memory)] >= 2
    ensures GfxFree(GfxFree(v).0).0 == GfxFree(v).0
  {
    var w := GfxFree(v).0;
    FreeCount(v, Swapchain, v.swapchain);
    FreeCount(w, Swapchain, v.swapchain);
    FreeCount(v, RenderPass, v.renderPass);
    FreeCount(w, RenderPass, v.renderPass);
    FreeCount(v, CommandPool, v.commandPool);
    FreeCount(w, CommandPool, v.commandPool);
    FreeCount(v, Pipeline, v.pipeline);
    FreeCount(w, Pipeline, v.pipeline);
    FreeCount(v, Kind.Buffer, v.vertices.buffer);
    FreeCount(w, Kind.Buffer, v.vertices.buffer);
    FreeCount(v, Memory, v.vertices.memory);
    FreeCount(w, Memory, v.vertices.memory);
    FreeCount(v, Kind.Buffer, v.indices.buffer);
    FreeCount(w, Kind.Buffer, v.indices.buffer);
    FreeCount(v, Memory, v.indices.memory);
    FreeCount(w, Memory, v.indices.memory);
  }

  // ---------------------------------------------------------------- the state object

  /** The steps of `draw_frame` after the fence reset, on a state whose fields are `v`
      and whose buffers are `vertices` and `indices`: upload the vertices, then the
      indices, record into the image's command buffer, submit, present. */
  method UploadAndSubmit(device: Device, vertices: BufferInfo, indices: BufferInfo, v: GfxView,
                         quad: seq<seq<byte>>, image: nat, wait: Handle, signal: Handle, a: FrameAnswers)
    returns (r: Result<()>)
    requires Shaped(v) && image < |v.commandBuffers| && image < |v.inFlightFences|
    requires v.vertices == vertices.View() && v.indices == indices.View()
    requires vertices.Valid() && indices.Valid() && vertices.contents != indices.contents
    requires |quad| == Utils.QUAD_DATA_LEN && Uniform(quad, Utils.F32_SIZE)
    modifies device, vertices.contents, indices.contents
    ensures |AsBytes(quad)| == VERTEX_BYTES && |AsBytes(QuadIndexElems())| == INDEX_BYTES
    ensures device.trace == old(device.trace) + AfterFence(v, image, wait, signal, a)
    ensures device.signaled == old(device.signaled) && r == AfterFenceResult(a)
    ensures vertices.contents[..] ==
      if a.vertexMapOk then Overwrite(old(vertices.contents[..]), AsBytes(quad)) else old(vertices.contents[..])
    ensures indices.contents[..] ==
      if a.vertexMapOk && a.indexMapOk then Overwrite(old(indices.contents[..]), AsBytes(QuadIndexElems()))
      else old(indices.contents[..])
  {
    AsBytesLength(quad, Utils.F32_SIZE);
    AsBytesLength(QuadIndexElems(), Utils.U16_SIZE);
    ghost var t0 := device.trace;
    ghost var vertexLoad := LoadEvents(v.vertices, VERTEX_BYTES, a.vertexMapOk);
    var loaded := vertices.LoadData(device, quad, Utils.F32_SIZE, a.vertexMapOk);
    if loaded.Err? {
      return Err(loaded.error);
    }
    ghost var indexLoad := LoadEvents(v.indices, INDEX_BYTES, a.indexMapOk);
    loaded := indices.LoadData(device, QuadIndexElems(), Utils.U16_SIZE, a.indexMapOk);
    AppendAssoc(t0, vertexLoad, indexLoad);
    if loaded.Err? {
      return Err(loaded.error);
    }
    device.LogAll(Submission(v, image, wait, signal));
    AppendAssoc(t0, vertexLoad + indexLoad, Submission(v, image, wait, signal));
    r := if a.presentOk then Ok(()) else Err(PRESENT_FAILED);
  }

  class GfxState {
    var currentFrame: nat
    var inFlightFences: seq<Handle>
    var renderFinishedSemaphores: seq<Handle>
    var imageAvailableSemaphores: seq<Handle>
    var commandBuffers: seq<Handle>
    var framebuffers: seq<Handle>
    var imageViews: seq<Handle>
    const commandPool: Handle
    const renderPass: Handle
    const swapchain: Handle
    const pipeline: Handle
    const vertices: BufferInfo
    const indices: BufferInfo
    const device: Device
    /** Whether `free` has run; the source keeps no such flag. */
    ghost var freed: bool

    function View(): GfxView
      reads this
    {
      GfxView(currentFrame, inFlightFences, renderFinishedSemaphores, imageAvailableSemaphores,
              commandBuffers, framebuffers, imageViews, commandPool, renderPass, swapchain, pipeline,
              vertices.View(), indices.View())
    }

    ghost predicate Valid()
      reads this
    {
      (!freed ==> Shaped(View())) &&
      vertices.Valid() && indices.Valid() && vertices.contents != indices.contents
    }

    constructor Assemble(device: Device, v: GfxView, vertices: BufferInfo, indices: BufferInfo)
      requires vertices.View() == v.vertices && indices.View() == v.indices
      ensures View() == v && this.device == device && this.vertices == vertices && this.indices == indices
      ensures !freed
    {
      this.device := device;
      currentFrame := v.currentFrame;
      inFlightFences := v.inFlightFences;
      renderFinishedSemaphores := v.renderFinished;
      imageAvailableSemaphores := v.imageAvailable;
      commandBuffers := v.commandBuffers;
      framebuffers := v.framebuffers;
      imageViews := v.imageViews;
      commandPool := v.commandPool;
      renderPass := v.renderPass;
      swapchain := v.swapchain;
      pipeline := v.pipeline;
      this.vertices := vertices;
      this.indices := indices;
      freed := false;
    }

    /** `GfxState::new`. The fences are created signaled. */
    static method New(device: Device, a: SetupAnswers) returns (r: Result<GfxState>)
      requires WellFormed(a)
      modifies device
      ensures r.Ok? ==> GfxSetup(a) == Ok(r.value.View()) && r.value.Valid() && !r.value.freed
      ensures r.Ok? ==> fresh(r.value) && r.value.device == device
      ensures r.Ok? ==> forall f :: f in r.value.inFlightFences ==> f in device.signaled
      ensures r.Err? ==> GfxSetup(a) == Err(r.error)
      ensures device.trace == old(device.trace) + GfxSetupEvents(a)
      ensures old(device.signaled) <= device.signaled
    {
      if a.swapchain.None? {
        return Err("Could not create swapchain");
      }
      if a.renderPass.None? {
        return Err("Could not create render pass");
      }
      var views := Collect(a.imageViews, "Could not create a backbuffer image view");
      if views.Err? {
        return Err(views.error);
      }
      var framebuffers := Collect(a.framebuffers, "Could not create framebuffer");
      if framebuffers.Err? {
        return Err(framebuffers.error);
      }
      if a.commandPool.None? {
        return Err("Could not create command pool");
      }
      var imageAvailable := Flight(a.imageAvailable, "Could not create semaphore");
      if imageAvailable.Err? {
        return Err(imageAvailable.error);
      }
      var renderFinished := Flight(a.renderFinished, "Could not create semaphore");
      if renderFinished.Err? {
        return Err(renderFinished.error);
      }
      var fences := Flight(a.fences, "Could not create fence");
      if fences.Err? {
        return Err(fences.error);
      }
      device.CreateSignaledFences(fences.value);
      if a.pipeline.Err? {
        return Err(a.pipeline.error);
      }
      var vertices := BufferInfo.New(device, a.memoryTypes, VERTEX_BYTES, VertexUsage, a.vertexBuffer);
      if vertices.Err? {
        return Err(vertices.error);
      }
      var indices := BufferInfo.New(device, a.memoryTypes, INDEX_BYTES, IndexUsage, a.indexBuffer);
      AppendAssoc(old(device.trace), NewBufferEvents(a.memoryTypes, VERTEX_BYTES, VertexUsage, a.vertexBuffer), NewBufferEvents(a.memoryTypes, INDEX_BYTES, IndexUsage, a.indexBuffer));
      if indices.Err? {
        return Err(indices.error);
      }
      var v := GfxView(0, fences.value, renderFinished.value, imageAvailable.value, a.commandBuffers,
                       framebuffers.value, views.value, a.commandPool.value, a.renderPass.value,
                       a.swapchain.value, a.pipeline.value, vertices.value.View(), indices.value.View());
      assert GfxSetup(a) == Ok(v);
      GfxSetupOutcome(a);
      var state := new GfxState.Assemble(device, v, vertices.value, indices.value);
      r := Ok(state);
    }

    /** `GfxState::draw_frame`: take the slot's semaphores, advance the slot, acquire,
        wait on and reset the image's fence, upload the vertices then the indices,
        record the quad into the image's command buffer, submit it with the fence and
        present. `quad` is the byte image of `QUAD_DATA`. */
    method DrawFrame(quad: seq<seq<byte>>, a: FrameAnswers) returns (r: Result<()>)
      requires Valid() && !freed && Accepts(View(), a)
      requires |quad| == Utils.QUAD_DATA_LEN && Uniform(quad, Utils.F32_SIZE)
      modifies this, device, vertices.contents, indices.contents
      ensures Valid() && !freed
      ensures |AsBytes(quad)| == VERTEX_BYTES && |AsBytes(QuadIndexElems())| == INDEX_BYTES
      ensures var run := DrawFrameSpec(old(View()), old(device.signaled), a);
        View() == old(View()).(currentFrame := run.currentFrame) &&
        device.trace == old(device.trace) + run.events &&
        device.signaled == run.signaled && r == run.result &&
        vertices.contents[..] ==
          (if run.vertexLoaded then Overwrite(old(vertices.contents[..]), AsBytes(quad)) else old(vertices.contents[..])) &&
        indices.contents[..] ==
          (if run.indexLoaded then Overwrite(old(indices.contents[..]), AsBytes(QuadIndexElems()))
           else old(indices.contents[..]))
    {
      AsBytesLength(quad, Utils.F32_SIZE);
      AsBytesLength(QuadIndexElems(), Utils.U16_SIZE);
      var v := View();
      var imageAvailable := imageAvailableSemaphores[currentFrame];
      var renderFinished := renderFinishedSemaphores[currentFrame];
      currentFrame := (currentFrame + 1) % Utils.FRAMES_IN_FLIGHT;
      var acquire := AcquireImage(swapchain, imageAvailable);
      device.Log(acquire);
      if a.acquired.None? {
        return Err(ACQUIRE_FAILED);
      }
      var image := a.acquired.value;
      var fence := inFlightFences[image];
      device.SyncFence(fence, a.waitOk, a.resetOk);
      AppendAssoc(old(device.trace), [acquire], FenceEvents(fence, a.waitOk));
      if !a.waitOk || !a.resetOk {
        return Err(if !a.waitOk then WAIT_FAILED else RESET_FAILED);
      }
      r := UploadAndSubmit(device, vertices, indices, v, quad, image, imageAvailable, renderFinished, a);
      AppendAssoc(old(device.trace), [acquire] + FenceEvents(fence, a.waitOk),
                  AfterFence(v, image, imageAvailable, renderFinished, a));
    }

    /** `free`: wait for idle, drain each vector, then release the buffers, the pipeline,
        the pool, the render pass and the swapchain. Without a guard in the source, a
        second call would destroy the latter again, so it is required not to have run. */
    method Free()
      requires Valid() && !freed
      modifies this, device
      ensures Valid() && freed
      ensures View() == GfxFree(old(View())).0
      ensures device.trace == old(device.trace) + GfxFree(old(View())).1
      ensures device.signaled == old(device.signaled)
    {
      freed := true;
      Drain();
      vertices.Free(device);
      indices.Free(device);
      device.LogAll([Destroy(Pipeline, pipeline), Destroy(CommandPool, commandPool),
                     Destroy(RenderPass, renderPass), Destroy(Swapchain, swapchain)]);
    }

    /** The first part of `free`: wait for idle, then destroy and empty each vector. */
    method Drain()
      modifies this, device
      ensures View() == old(View()).(inFlightFences := [], renderFinished := [], imageAvailable := [],
                                     framebuffers := [], imageViews := [])
      ensures freed == old(freed)
      ensures device.trace == old(device.trace) + GfxDrainTrace(old(View()))
      ensures device.signaled == old(device.signaled)
    {
      ghost var t0 := device.trace;
      device.Log(WaitIdle);
      device.DestroyAll(Fence, inFlightFences);
      AppendAssoc(t0, [WaitIdle], Destroys(Fence, inFlightFences));
      ghost var done := [WaitIdle] + Destroys(Fence, inFlightFences);
      device.DestroyAll(Semaphore, renderFinishedSemaphores);
      AppendAssoc(t0, done, Destroys(Semaphore, renderFinishedSemaphores));
      done := done + Destroys(Semaphore, renderFinishedSemaphores);
      device.DestroyAll(Semaphore, imageAvailableSemaphores);
      AppendAssoc(t0, done, Destroys(Semaphore, imageAvailableSemaphores));
      done := done + Destroys(Semaphore, imageAvailableSemaphores);
      device.DestroyAll(Framebuffer, framebuffers);
      AppendAssoc(t0, done, Destroys(Framebuffer, framebuffers));
      done := done + Destroys(Framebuffer, framebuffers);
      device.DestroyAll(ImageView, imageViews);
      AppendAssoc(t0, done, Destroys(ImageView, imageViews));
      inFlightFences, renderFinishedSemaphores, imageAvailableSemaphores := [], [], [];
      framebuffers, imageViews := [], [];
    }

    /** `Drop`: calls `free`. */
    method Drop()
      requires Valid() && !freed
      modifies this, device
      ensures Valid() && freed
      ensures View() == GfxFree(old(View())).0
      ensures device.trace == old(device.trace) + GfxFree(old(View())).1
    {
      Free();
    }
  }

}
