/** The driver's answers during construction of a render state, and the helper
    both constructors use to create one synchronisation object per frame slot. */
module Setup {
  import opened Wrappers
  import opened Gpu
  import opened Buffers
  import Utils

  /** What the driver returns to each creation call of a constructor, in the order the
      calls could be made: `None` is a failed call. `images` is the length of the
      backbuffer the swapchain comes with; there is one view, framebuffer and command
      buffer answer per image and one semaphore or fence answer per frame slot. */
  datatype SetupAnswers = SetupAnswers(
    swapchain: Option<Handle>,
    images: nat,
    renderPass: Option<Handle>,
    imageViews: seq<Option<Handle>>,
    framebuffers: seq<Option<Handle>>,
    commandPool: Option<Handle>,
    imageAvailable: seq<Option<Handle>>,
    renderFinished: seq<Option<Handle>>,
    fences: seq<Option<Handle>>,
    commandBuffers: seq<Handle>,
    pipeline: Result<Handle>,
    memoryTypes: seq<MemoryType>,
    vertexBuffer: BufferAnswers,
    indexBuffer: BufferAnswers)

  /** The answers fit the calls: one per image or per slot, and at most 64 memory types
      (the `1 << id` of the type search). */
  predicate Consistent(a: SetupAnswers) {
    |a.imageViews| == a.images && |a.framebuffers| == a.images && |a.commandBuffers| == a.images &&
    |a.imageAvailable| == Utils.FRAMES_IN_FLIGHT && |a.renderFinished| == Utils.FRAMES_IN_FLIGHT &&
    |a.fences| == Utils.FRAMES_IN_FLIGHT &&
    |a.memoryTypes| <= 64
  }

  /** Consistent answers whose memory requirements are at least as large as the buffers
      the quad is uploaded into. */
  predicate WellFormed(a: SetupAnswers) {
    Consistent(a) &&
    a.vertexBuffer.requirements.size >= ArraySize(Utils.QUAD_DATA_LEN, Utils.F32_SIZE) &&
    a.indexBuffer.requirements.size >= ArraySize(|Utils.QuadIndices()|, Utils.U16_SIZE)
  }

  /** `flight` (and its twin `full_flight`): call the creator once per frame slot and
      collect; exactly FRAMES_IN_FLIGHT handles, or the creator's error. */
  function Flight(made: seq<Option<Handle>>, message: string): (r: Result<seq<Handle>>)
    requires |made| == Utils.FRAMES_IN_FLIGHT
    ensures r.Ok? <==> forall i :: 0 <= i < |made| ==> made[i].Some?
    ensures r.Ok? ==> |r.value| == Utils.FRAMES_IN_FLIGHT && forall i :: 0 <= i < |made| ==> r.value[i] == made[i].value
    ensures r.Err? ==> r.error == message
  {
    Collect(made, message)
  }
}
