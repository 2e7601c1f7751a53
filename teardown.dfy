/** The dependency order in which the render states release what they own:
    fences, semaphores, framebuffers, image views, buffer resources, the pipeline,
    the command pool, the render pass, the swapchain, then the device itself. */
module Teardown {
  import opened Gpu

  /** Position of a teardown call in the dependency order; a buffer and its memory
      share a rank because each buffer resource releases the two together. */
  function Rank(e: Event): nat {
    match e
    case WaitIdle => 0
    case Destroy(kind, _) =>
      (match kind
       case Fence => 1
       case Semaphore => 2
       case Framebuffer => 3
       case ImageView => 4
       case Buffer => 5
       case Memory => 5
       case Pipeline => 6
       case CommandPool => 7
       case RenderPass => 8
       case Swapchain => 9)
    case DropQueueGroup => 10
    case DropDevice => 11
    case DropInstance => 12
    case _ => 0
  }

  /** No call is issued after one that comes later in the dependency order. */
  ghost predicate InDependencyOrder(t: seq<Event>) {
    forall i, j :: 0 <= i < j < |t| ==> Rank(t[i]) <= Rank(t[j])
  }

  /** Every call of `t` has a rank between `lo` and `hi`. */
  ghost predicate RanksWithin(t: seq<Event>, lo: nat, hi: nat) {
    forall i :: 0 <= i < |t| ==> lo <= Rank(t[i]) <= hi
  }

  lemma OrderedAppend(a: seq<Event>, b: seq<Event>, lo: nat, mid: nat, hi: nat)
    requires lo <= mid <= hi
    requires InDependencyOrder(a) && RanksWithin(a, lo, mid)
    requires InDependencyOrder(b) && RanksWithin(b, mid, hi)
    ensures InDependencyOrder(a + b) && RanksWithin(a + b, lo, hi)
  {
    var u := a + b;
    forall i, j | 0 <= i < j < |u| ensures Rank(u[i]) <= Rank(u[j]) {
      if j < |a| {
        assert u[i] == a[i] && u[j] == a[j];
      } else if i >= |a| {
        assert u[i] == b[i - |a|] && u[j] == b[j - |a|];
      } else {
        assert u[i] == a[i] && u[j] == b[j - |a|];
      }
    }
    forall i | 0 <= i < |u| ensures lo <= Rank(u[i]) <= hi {
      if i < |a| {
        assert u[i] == a[i];
      } else {
        assert u[i] == b[i - |a|];
      }
    }
  }

  /** A drain loop's destroys all share the rank of their kind. */
  lemma DestroysOrdered(kind: Kind, hs: seq<Handle>)
    ensures InDependencyOrder(Destroys(kind, hs))
    ensures RanksWithin(Destroys(kind, hs), Rank(Destroy(kind, 0)), Rank(Destroy(kind, 0)))
  {
  }

  /** Appending a drain of `kind` to an ordered trace of lower ranks keeps it ordered. */
  lemma AppendDrain(t: seq<Event>, kind: Kind, hs: seq<Handle>, hi: nat)
    requires hi <= Rank(Destroy(kind, 0))
    requires InDependencyOrder(t) && RanksWithin(t, 0, hi)
    ensures InDependencyOrder(t + Destroys(kind, hs)) && RanksWithin(t + Destroys(kind, hs), 0, Rank(Destroy(kind, 0)))
  {
    DestroysOrdered(kind, hs);
    OrderedAppend(t, Destroys(kind, hs), 0, Rank(Destroy(kind, 0)), Rank(Destroy(kind, 0)));
  }
}
