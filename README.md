# learn_gfx_rs renderer core in Dafny

This project models the bookkeeping layer of a small gfx-hal renderer: two render
states (`HalState`, which clears the screen, and `GfxState`, which draws a quad), the
free-standing `drawing::draw_frame` the render loop calls, the `BufferInfo` buffer
resource, and the constants in `utils.rs`.

Every call into the graphics driver becomes a `Gpu.Event` appended to the trace of a
`Gpu.Device`. Whatever the driver answers is an input to the model: the acquired image
index, whether a wait, reset, map or present succeeds, the handles a create call returns,
the memory-type table and the memory requirements. These answers come in as
`Frames.FrameAnswers`, `Setup.SetupAnswers` and `Buffers.BufferAnswers`. The CPU-side
status of fences is a set of signaled fences on the device.

Each state-changing operation is a method on a class that has the source's fields: it
mutates `seq` fields and the `array<byte>` contents of a buffer, and ensures that the new
state and the new trace are a pure function of the old state (`DrawClearSpec`,
`DrawFrameSpec`, `HalFree`, `GfxFree`, `NewBufferSpec`, ...). The lemmas next to those
functions state what the source promises:
- the frame slot rotates modulo 3 before anything can fail;
- semaphores are picked by slot, while the fence, command buffer and framebuffer are picked by image;
- the fence guard: wait, then reset, then record, then submit with that fence;
- teardown runs in dependency order, and releases each handle exactly once (or twice, for `GfxState` freed and then dropped);
- the lowest qualifying memory type is chosen;
- an upload reads back as written.

Modules, one file each:
- `Wrappers`: `Option` and `Result`.
- `Gpu`: handles, events, the device, and `collect` over results.
- `Utils`: the quad constants.
- `Buffers`: `buffer_info.rs`.
- `Setup`: driver answers during construction, and `flight`/`full_flight`.
- `Frames`: the slot ring and the fence guard, shared by both states.
- `Teardown`: the dependency order.
- `Hal`: `hal_state.rs`.
- `Gfx`: `gfx_state.rs`.
- `Drawing`: `drawing.rs`.

## Model

| member | source | states |
|---|---|---|
| Utils.QuadVertexCount | src/utils.rs:10-15 | `QUAD_DATA`'s 8 floats are exactly 4 two-component vertices |
| Utils.QuadIndices | src/utils.rs:17-21 | `QUAD_INDICES` has 6 entries (a multiple of 3, so whole triangles), each below the vertex count, so each addresses a vertex of `QUAD_DATA` |
| Utils.QuadTrianglesShareDiagonal | src/utils.rs:18-21 | both triangles contain vertices 0 and 2 (the shared diagonal), and together they use all 4 vertices |
| Gpu.Collect | src/gfx_state.rs:186-208 | `collect::<Result<Vec<_>,_>>()`: Ok exactly when every creation succeeded, then the handles in order and one per input; otherwise the creation's error message |
| Gpu.Destroys | src/hal_state.rs:515-533 | a `drain(..)` destroy loop issues one destroy of the right kind per handle, front to back |
| Gpu.DestroysCount | src/hal_state.rs:515-533 | a drain loop destroys handle `h` as often as `h` occurs in the vector, and destroys nothing of another kind |
| Gpu.Device.DestroyAll | src/gfx_state.rs:368-386 | the drain loop appends exactly `Destroys(kind, hs)` to the trace and leaves fence status alone |
| Gpu.Device.WaitForFence | src/hal_state.rs:461-463 | a successful wait on a fence leaves it signaled; a failed one changes nothing but the trace |
| Gpu.Device.ResetFence | src/hal_state.rs:464-465 | a successful reset unsignals the fence |
| Gpu.Device.SyncFence | src/gfx_state.rs:298-302 | waits on the fence and resets it only after a successful wait. Afterwards the fence is as before if the wait failed, still signaled if the reset failed, and unsignaled if both succeeded |
| Gpu.Device.CreateSignaledFences | src/hal_state.rs:175-179 | fences are created signaled: every new fence is added to the device's signaled set |
| Setup.Flight | src/hal_state.rs:556-563 | `flight`/`full_flight` yield exactly FRAMES_IN_FLIGHT (3) objects, in order, or the creator's error |
| Buffers.FindMemoryType | src/buffer_info.rs:35-46 | a type is found exactly when some type has its bit set in `type_mask` and is CPU_VISIBLE; the type found qualifies, and no lower index does |
| Buffers.AsBytesLength | src/buffer_info.rs:90-92 | the byte image of a slice of `len` elements of `size_of::<T>()` bytes is `array_size = len * size_of::<T>()` bytes long |
| Buffers.AsBytesElement | src/buffer_info.rs:70-75 | element `i` of the copied slice occupies bytes `i*size .. (i+1)*size` of what `ptr::copy` reads |
| Buffers.U16RoundTrip | src/gfx_state.rs:43-46 | a `u16` index decodes back from its two little-endian bytes |
| Buffers.UploadReadsBack | src/buffer_info.rs:63-80 | after the copy each element reads back from its own bytes, and the memory past `array_size` bytes keeps its old contents |
| Buffers.NewBufferOutcome | src/buffer_info.rs:21-61 | `new` succeeds iff create, type search, allocation and bind all succeed. Then the buffer is created with the requested size, memory of exactly `requirements.size` is allocated from the lowest qualifying type and bound at offset 0. With no qualifying type the result is the memory-type error and nothing is allocated |
| Buffers.BufferInfo.New | src/buffer_info.rs:21-61 | the method's result and device calls are those of `NewBufferSpec`/`NewBufferEvents`; on success the buffer's memory is a fresh byte array of `requirements.size` |
| Buffers.BufferInfo.LoadData | src/buffer_info.rs:63-80 | maps `0..requirements.size`. On success it copies exactly `array_size(data)` bytes (the slice's image) to offset 0, leaves later bytes as they were, unmaps and returns Ok. A failed map returns "Failed to memory map buffer" and leaves memory untouched |
| Buffers.BufferInfo.Free | src/buffer_info.rs:82-87 | destroys the buffer, then frees its memory |
| Frames.NextSlot | src/hal_state.rs:448 | the next slot is always below FRAMES_IN_FLIGHT |
| Frames.SlotAfterIsModular | src/gfx_state.rs:289 | after `n` frames the slot is `(slot + n) % 3` |
| Frames.SlotRotation | src/drawing.rs:19-21 | the slot stays in `[0,3)`, and two frame counts give the same slot iff they agree modulo 3 |
| Frames.FrameGuard | src/hal_state.rs:461-495 | a frame that waits on a fence, resets it only after a successful wait, and records and submits only after a successful reset has a prefix of wait, reset, begin, submit as its guard calls; the whole block exactly when it recorded |
| Hal.HalSetupShape | src/hal_state.rs:91-437 | `init` succeeds iff every step succeeds. It then yields one view, framebuffer and command buffer per swapchain image, 3 semaphores of each kind, 3 fences, slot 0, and not freed |
| Hal.HalState.Init | src/hal_state.rs:87-437 | `new`/`init` produce exactly `HalSetup`'s state or error, in the source's step order with its messages. Fences end up signaled. The unstored vertex buffer's create and allocate calls are issued |
| Hal.DrawClearOutcome | src/hal_state.rs:439-454 | on a freed state: "Use of freed Gfx state", and nothing changes, not even the slot. Otherwise the slot advances by one mod 3 whatever fails, and the frame succeeds iff acquire, wait, reset and present all do |
| Hal.DrawClearIndexing | src/hal_state.rs:446-499 | the semaphores come from the pre-increment slot; the fence, command buffer, framebuffer and presented image come from the acquired index |
| Hal.DrawClearGuard | src/hal_state.rs:461-495 | the frame's guard calls are a prefix of wait, reset, begin, submit-with-that-fence. The full block happens iff the wait and the reset succeed |
| Hal.HalState.DrawClearFrame | src/hal_state.rs:439-502 | the method's new slot, calls, fence status and result are those of `DrawClearSpec` |
| Hal.HalFreeIdempotent | src/hal_state.rs:504-508 | after `free` the state is freed with every vector empty; a second `free` issues nothing and changes nothing |
| Hal.HalFreeInOrder | src/hal_state.rs:510-546 | `free` waits for idle, then destroys fences, semaphores, framebuffers, image views, command pool, render pass, swapchain, and drops the queue group, device and instance, never out of that order |
| Hal.HalFreeReleasesOnce | src/hal_state.rs:515-541 | with distinct handles, `free` destroys every owned fence, semaphore, framebuffer and view, and the pool, render pass and swapchain, exactly once |
| Hal.HalState.Free | src/hal_state.rs:504-548 | the method's new state and calls are those of `HalFree`: nothing when freed, else freed is set first and the vectors are drained |
| Hal.HalState.Drop | src/hal_state.rs:550-554 | dropping runs `free` |
| Gfx.GfxSetupOutcome | src/gfx_state.rs:77-284 | `new` succeeds iff every step succeeds. It then yields one view, framebuffer and command buffer per swapchain image, 3 semaphores of each kind, 3 fences, slot 0, and buffers large enough for the quad |
| Gfx.GfxSetupBuffers | src/gfx_state.rs:270-271 | a successful `new` creates a 32-byte vertex buffer (8 `f32`) and a 12-byte index buffer (6 `u16`). Each is followed by an allocation of the required size and a bind at offset 0 |
| Gfx.GfxState.New | src/gfx_state.rs:77-284 | the constructor produces exactly `GfxSetup`'s state or error, with fences signaled, and issues the buffer calls of `GfxSetupEvents` |
| Gfx.QuadIndexElems | src/gfx_state.rs:43-46 | six two-byte elements that decode to `QUAD_INDICES` |
| Gfx.IndexUploadReadsBack | src/gfx_state.rs:305 | after the index upload, bytes `2i..2i+2` of the index memory decode to the `i`-th quad index |
| Gfx.DrawFrameOutcome | src/gfx_state.rs:286-360 | the slot advances mod 3 whatever fails, and the frame succeeds iff every step does. The vertex and index buffers are rewritten exactly when their step is reached and its map succeeds. A frame that stops early records, submits and presents nothing; one that stops at the fence maps nothing |
| Gfx.DrawFrameIndexing | src/gfx_state.rs:287-355 | the semaphores come from the pre-increment slot. The fence, command buffer, framebuffer, submission and presented image come from the acquired index. Uploads go to the state's own memories |
| Gfx.DrawFrameUploadsFirst | src/gfx_state.rs:298-310 | in a recorded frame the image's fence is waited on, then reset, then the 32 vertex bytes are copied, then the 12 index bytes, and only then is the command buffer begun; every copy precedes every begin |
| Gfx.DrawFrameDrawsQuad | src/gfx_state.rs:310-339 | a recorded frame issues exactly one indexed draw (it occurs once in the calls, and no other call is a draw). It covers indices `0..6` (all of `QUAD_INDICES`, exactly the uploaded bytes) with 1 instance. Before it, after the command buffer is begun and before the render pass is, come the pipeline bind, the vertex and index buffer binds and the two-word push; it lies between the begin of the render pass on the image's framebuffer and its end |
| Gfx.DrawFrameGuard | src/gfx_state.rs:298-353 | the frame's guard calls are a prefix of wait, reset, begin, submit-with-that-fence. The whole block happens iff both maps succeed too |
| Gfx.RunFramesRotate | src/gfx_state.rs:287-289 | after any run of `n` frames only the slot has changed, and it is the slot `n` steps on |
| Gfx.RunFramesGuarded | src/gfx_state.rs:298-353 | over any run of frames, each command buffer is begun only right after a wait on and a reset of its image's fence, and is submitted with that fence |
| Gfx.UploadAndSubmit | src/gfx_state.rs:304-359 | past the fence: the vertices are uploaded, then the indices, and the first failed map ends the frame with its error. Then the quad is recorded into the image's command buffer, submitted with the image's fence, and the image presented. Fence status is untouched; each buffer's memory is overwritten exactly when its map succeeded |
| Gfx.GfxState.DrawFrame | src/gfx_state.rs:286-360 | the method's new slot, calls, fence status, result and both buffers' memory are those of `DrawFrameSpec`. The memory is overwritten by the quad's bytes or its index bytes, or left as it was |
| Drawing.DrawFrame | src/drawing.rs:14-113 | the free-standing `draw_frame` has exactly the effect the method has: the same `DrawFrameSpec`, and the same memory contents |
| Gfx.GfxFreeInOrder | src/gfx_state.rs:362-399 | `free` releases in dependency order: fences, semaphores, framebuffers, views, buffers, pipeline, command pool, render pass, swapchain. The vertex memory is freed only after the vertex buffer is destroyed, and, when the two memories differ, the index memory only after the index buffer |
| Gfx.GfxFreeReleasesOnce | src/gfx_state.rs:362-399 | with distinct handles, one `free` destroys every owned handle exactly once: fences, semaphores, framebuffers, views, both buffers and memories, pipeline, pool, render pass, swapchain |
| Gfx.FreeTwiceRepeats | src/gfx_state.rs:362-407 | `free` followed by `Drop` (the resize path in src/main.rs:73-74) drains nothing new, yet destroys the swapchain, render pass, pool, pipeline and both buffers and memories a second time |
| Gfx.GfxState.Free | src/gfx_state.rs:362-400 | the method's new state and calls are those of one `GfxFree` |
| Gfx.GfxState.Drop | src/gfx_state.rs:403-407 | dropping runs `free` |

## Left out

- Window creation, the event loop, logging and `render`'s printing of errors (src/main.rs, src/window.rs) are not modelled, except as the resize sequence stated by `Gfx.FreeTwiceRepeats`.
- Shader compilation and the file reads it needs are not modelled: they are foreign libraries and I/O. The pipeline (src/pipeline_info.rs: its layouts and descriptor set layouts) is one opaque handle, created in one step whose error the driver supplies and destroyed by one call. src/image_info.rs is not part of this model.
- Discovery of the instance, surface, adapter, queue family and queue group (src/hal_state.rs:93-144, src/gfx_state.rs:79-131) is not modelled: those are driver decisions and come before every modelled step.
- Gpu.Device.CreateSignaledFences: the fences enter the signaled set, but no wait reads that set, because a wait's outcome is a driver answer; that the first wait on a new fence does not block is therefore not stated.
- Real GPU behaviour is not modelled: asynchronous fence signalling, semaphore ordering on the GPU and the `u64::MAX` timeouts. Fences appear only as a CPU-visible signaled set, and a wait answers at once.
- Float payloads are not modelled: the clear colour, the mouse position pushed as two words, the `f32` values of `QUAD_DATA`. The quad is an input of 8 four-byte elements; a push is logged with its word count.
- Only the buffer calls of construction are logged: create, allocate, bind. Other creations are driver answers. The handles made before a failing construction step, which the source leaks, are not tracked.
- `collect` and `flight` stop at the first failure. The model reads only the answers up to that failure.
- `HalState::init`'s vertex buffer and memory (src/hal_state.rs:391-414) are created and never stored. Their calls are logged, but they are not owned and never released.
- Hal.Accepts: the acquired image index must be below the number of command buffers and below FRAMES_IN_FLIGHT (the fence vector's length); the source would panic on a larger index.
- Gfx.Accepts: the same bound on the acquired image index, for the same reason.
- Gfx.GfxState.DrawFrame: requires a state that has not been freed; the source has no check, and after `free` the slot's semaphore lookup would panic on an empty vector.
- Drawing.DrawFrame: the same requirement, for the same reason.
- Gfx.GfxState.Free: requires a state that has not been freed, because the source has no guard. What a second call would do is stated on values by `Gfx.FreeTwiceRepeats`.
- Gfx.GfxState.Drop: the same requirement. The implicit drops of the device and queue group after `free` are Rust field drops, not logged calls.
- Buffers.BufferInfo.LoadData: requires `array_size(data) <= requirements.size`, which the source never checks.
- Buffers.ArraySize: `usize` overflow of `len * size_of::<T>()` is not modelled; the sizes here are 12, 24 and 32 bytes.
- Buffers.FindMemoryType: requires at most 64 memory types, so that `1 << id` stays within the 64-bit mask.
- Buffers.U16Le: the host is assumed little-endian.
- Memory contents start as zero bytes in the model; the driver's memory is uninitialised.
- The "suboptimal swapchain" message printed by `draw_clear_frame` is not modelled; presentation counts only as success or failure.
- Setup.Consistent: the driver's answers are assumed consistent. There is one view, framebuffer and command buffer per image, and 3 objects per flight. There are at most 64 memory types.
- Setup.WellFormed: for `GfxState::new` only, the buffers' memory requirements are also assumed at least the bytes later uploaded into them; `load_data` never checks that the copy fits.
