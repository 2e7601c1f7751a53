/** `drawing::draw_frame`: the free-standing copy of `GfxState::draw_frame` that the
    render loop calls. It works on the state's fields from outside and is proved against
    the same specification as the method. */
module Drawing {
  import opened Wrappers
  import opened Gpu
  import opened Buffers
  import opened Frames
  import opened Gfx
  import Utils

  /** One frame over `state`: take the slot's semaphores, advance the slot, acquire,
      wait on and reset the fence of the acquired image, then upload, record, submit and
      present as the method does. `quad` is the byte image of `QUAD_DATA`. */
  method DrawFrame(state: GfxState, quad: seq<seq<byte>>, a: FrameAnswers) returns (r: Result<()>)
    requires state.Valid() && !state.freed && Accepts(state.View(), a)
    requires |quad| == Utils.QUAD_DATA_LEN && Uniform(quad, Utils.F32_SIZE)
    modifies state, state.device, state.vertices.contents, state.indices.contents
    ensures state.Valid() && !state.freed
    ensures |AsBytes(quad)| == VERTEX_BYTES && |AsBytes(QuadIndexElems())| == INDEX_BYTES
    ensures var run := DrawFrameSpec(old(state.View()), old(state.device.signaled), a);
      state.View() == old(state.View()).(currentFrame := run.currentFrame) &&
      state.device.trace == old(state.device.trace) + run.events &&
      state.device.signaled == run.signaled && r == run.result &&
      state.vertices.contents[..] ==
        (if run.vertexLoaded then Overwrite(old(state.vertices.contents[..]), AsBytes(quad))
         else old(state.vertices.contents[..])) &&
      state.indices.contents[..] ==
        (if run.indexLoaded then Overwrite(old(state.indices.contents[..]), AsBytes(QuadIndexElems()))
         else old(state.indices.contents[..]))
  {
    AsBytesLength(quad, Utils.F32_SIZE);
    AsBytesLength(QuadIndexElems(), Utils.U16_SIZE);
    var v := state.View();
    var imageAvailable := state.imageAvailableSemaphores[state.currentFrame];
    var renderFinished := state.renderFinishedSemaphores[state.currentFrame];
    state.currentFrame := (state.currentFrame + 1) % Utils.FRAMES_IN_FLIGHT;
    var acquire := AcquireImage(state.swapchain, imageAvailable);
    state.device.Log(acquire);
    if a.acquired.None? {
      return Err(ACQUIRE_FAILED);
    }
    var image := a.acquired.value;
    var flightFence := state.inFlightFences[image];
    state.device.SyncFence(flightFence, a.waitOk, a.resetOk);
    AppendAssoc(old(state.device.trace), [acquire], FenceEvents(flightFence, a.waitOk));
    if !a.waitOk || !a.resetOk {
      return Err(if !a.waitOk then WAIT_FAILED else RESET_FAILED);
    }
    r := UploadAndSubmit(state.device, state.vertices, state.indices, v, quad, image,
                         imageAvailable, renderFinished, a);
    AppendAssoc(old(state.device.trace), [acquire] + FenceEvents(flightFence, a.waitOk),
                AfterFence(v, image, imageAvailable, renderFinished, a));
  }
}
