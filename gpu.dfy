/** The device side of the renderer: opaque handles, the calls the core makes
    on the logical device and on command buffers, recorded as events in a trace,
    and the CPU-visible status of fences. */
module Gpu {
  import opened Wrappers

  /** An opaque GPU object handle (fence, semaphore, view, buffer, ...). */
  type Handle = nat

  /** What a destroy call releases. `Memory` is `free_memory`. */
  datatype Kind =
    | Fence | Semaphore | Framebuffer | ImageView | Buffer | Memory
    | Pipeline | CommandPool | RenderPass | Swapchain

  datatype Usage = VertexUsage | IndexUsage

  /** One call into the graphics driver, in the order the core issues it. */
  datatype Event =
    // buffer creation and upload
    | CreateBuffer(size: nat, usage: Usage)
    | AllocateMemory(memoryType: nat, size: nat)
    | BindBufferMemory(memory: Handle, offset: nat, buffer: Handle)
    | MapMemory(memory: Handle, start: nat, end: nat)
    | CopyToMapped(memory: Handle, offset: nat, count: nat)
    | UnmapMemory(memory: Handle)
    // per-frame synchronisation
    | AcquireImage(swapchain: Handle, signal: Handle)
    | WaitFence(fence: Handle)
    | ResetFence(fence: Handle)
    // command recording
    | BeginPrimary(commands: Handle)
    | BindPipeline(commands: Handle, pipeline: Handle)
    | BindVertexBuffer(commands: Handle, buffer: Handle)
    | BindIndexBuffer(commands: Handle, buffer: Handle)
    | PushConstants(commands: Handle, words: nat)
    | BeginRenderPass(commands: Handle, renderPass: Handle, framebuffer: Handle)
    | DrawIndexed(commands: Handle, firstIndex: nat, endIndex: nat, firstInstance: nat, endInstance: nat)
    | EndRenderPass(commands: Handle)
    | Finish(commands: Handle)
    // submission and presentation
    | Submit(commands: Handle, wait: Handle, signal: Handle, fence: Handle)
    | Present(swapchain: Handle, image: nat, wait: Handle)
    // teardown
    | WaitIdle
    | Destroy(kind: Kind, handle: Handle)
    | DropQueueGroup
    | DropDevice
    | DropInstance

  /** The destroy calls of a `for h in v.drain(..) { destroy(h) }` loop, front to back. */
  function Destroys(kind: Kind, hs: seq<Handle>): (t: seq<Event>)
    ensures |t| == |hs|
    ensures forall i :: 0 <= i < |hs| ==> t[i] == Destroy(kind, hs[i])
  {
    seq(|hs|, i requires 0 <= i < |hs| => Destroy(kind, hs[i]))
  }

  /** Destroying a list of handles destroys each of them as many times as it is listed,
      and destroys nothing of another kind. */
  lemma {:induction false} DestroysCount(kind: Kind, hs: seq<Handle>, k: Kind, h: Handle)
    ensures multiset(Destroys(kind, hs))[Destroy(k, h)] == if k == kind then multiset(hs)[h] else 0
  {
    if hs != [] {
      var n := |hs| - 1;
      assert hs == hs[..n] + [hs[n]];
      assert Destroys(kind, hs) == Destroys(kind, hs[..n]) + [Destroy(kind, hs[n])];
      DestroysCount(kind, hs[..n], k, h);
    }
  }

  /** Every handle of the list occurs once. */
  predicate Distinct(hs: seq<Handle>) {
    forall i, j :: 0 <= i < j < |hs| ==> hs[i] != hs[j]
  }

  lemma {:induction false} DistinctCount(hs: seq<Handle>, h: Handle)
    requires Distinct(hs)
    ensures multiset(hs)[h] == if h in hs then 1 else 0
  {
    if hs != [] {
      var n := |hs| - 1;
      assert hs == hs[..n] + [hs[n]];
      assert Distinct(hs[..n]);
      DistinctCount(hs[..n], h);
      assert hs[n] !in hs[..n];
    }
  }

  /** `iter.map(make).collect::<Result<Vec<_>, _>>()` where every failure is mapped to
      the same message: all handles in order, or the message when any creation failed. */
  function {:induction false} Collect(made: seq<Option<Handle>>, message: string): (r: Result<seq<Handle>>)
    ensures r.Ok? <==> forall i :: 0 <= i < |made| ==> made[i].Some?
    ensures r.Ok? ==> |r.value| == |made| && forall i :: 0 <= i < |made| ==> r.value[i] == made[i].value
    ensures r.Err? ==> r.error == message
  {
    if made == [] then Ok([])
    else if made[0].None? then Err(message)
    else
      match Collect(made[1..], message)
      case Err(e) => Err(e)
      case Ok(rest) =>
        assert forall i :: 1 <= i < |made| ==> made[i] == made[1..][i - 1];
        Ok([made[0].value] + rest)
  }

  /** Regrouping a trace built by successive appends. */
  lemma AppendAssoc<T>(a: seq<T>, b: seq<T>, c: seq<T>)
    ensures (a + b) + c == a + (b + c)
  {
  }

  /** The calls of the fence handshake: the wait, then the reset unless the wait failed. */
  function FenceEvents(fence: Handle, waitOk: bool): seq<Event> {
    [WaitFence(fence)] + if waitOk then [ResetFence(fence)] else []
  }

  /** The logical device: the events issued so far and the fences it reports signaled. */
  class Device {
    var trace: seq<Event>
    var signaled: set<Handle>

    constructor ()
      ensures trace == [] && signaled == {}
    {
      trace := [];
      signaled := {};
    }

    method Log(e: Event)
      modifies this
      ensures trace == old(trace) + [e] && signaled == old(signaled)
    {
      trace := trace + [e];
    }

    method LogAll(es: seq<Event>)
      modifies this
      ensures trace == old(trace) + es && signaled == old(signaled)
    {
      trace := trace + es;
    }

    /** `create_fence(true)` for each handle: every new fence starts signaled. */
    method CreateSignaledFences(fences: seq<Handle>)
      modifies this
      ensures trace == old(trace)
      ensures signaled == old(signaled) + set f | f in fences
    {
      signaled := signaled + set f | f in fences;
    }

    /** `wait_for_fence`: when it returns success the GPU has signaled the fence. */
    method WaitForFence(fence: Handle, ok: bool)
      modifies this
      ensures trace == old(trace) + [WaitFence(fence)]
      ensures signaled == if ok then old(signaled) + {fence} else old(signaled)
    {
      trace := trace + [WaitFence(fence)];
      if ok {
        signaled := signaled + {fence};
      }
    }

    /** `reset_fence`: on success the fence is unsignaled until the next submission completes. */
    method ResetFence(fence: Handle, ok: bool)
      modifies this
      ensures trace == old(trace) + [Event.ResetFence(fence)]
      ensures signaled == if ok then old(signaled) - {fence} else old(signaled)
    {
      trace := trace + [Event.ResetFence(fence)];
      if ok {
        signaled := signaled - {fence};
      }
    }

    /** `wait_for_fence` and, when the wait succeeded, `reset_fence`: the fence
        handshake at the start of a frame, stopping at the first failure. */
    method SyncFence(fence: Handle, waitOk: bool, resetOk: bool)
      modifies this
      ensures trace == old(trace) + FenceEvents(fence, waitOk)
      ensures signaled == if !waitOk then old(signaled) else if !resetOk then old(signaled) + {fence}
                          else old(signaled) - {fence}
    {
      WaitForFence(fence, waitOk);
      if waitOk {
        ResetFence(fence, resetOk);
      }
    }

    /** The body of a `drain(..)` loop: destroy each handle, front to back. */
    method DestroyAll(kind: Kind, hs: seq<Handle>)
      modifies this
      ensures trace == old(trace) + Destroys(kind, hs) && signaled == old(signaled)
    {
      var i := 0;
      while i < |hs|
        invariant 0 <= i <= |hs|
        invariant trace == old(trace) + Destroys(kind, hs[..i]) && signaled == old(signaled)
      {
        assert Destroys(kind, hs[..i + 1]) == Destroys(kind, hs[..i]) + [Destroy(kind, hs[i])];
        Log(Destroy(kind, hs[i]));
        i := i + 1;
      }
      assert hs[..i] == hs;
    }
  }
}
