/**
 * Shared helpers of the mining proxy: the version-rolling mask selection, a
 * list of task handles that are all aborted together when it is dropped,
 * and the decimal display of a user id.
 */
module Utils {
  import opened Wrappers
  import opened Text

  /** The version bits the proxy lets miners roll: bits 13 to 28. */
  const AllowedMask: bv32 := 0x1FFF_E000

  /** `sv1_rolling`: the mask a miner asked for in `mining.configure`, cut
      down to the allowed bits (0 when it asked for none), and its minimum
      bit count passed through (0 when absent). */
  function Sv1Rolling(requestedMask: Option<bv32>, requestedMinBits: Option<bv32>): (r: (bv32, bv32))
    ensures r.0 & !AllowedMask == 0
    ensures r.0 & 0x1FFF == 0 && r.0 < 1 << 29  // only bits 13 to 28
    ensures requestedMask.None? ==> r.0 == 0
    ensures requestedMinBits.Some? ==> r.1 == requestedMinBits.value
    ensures requestedMinBits.None? ==> r.1 == 0
  {
    var mask := match requestedMask
      case Some(m) => m & AllowedMask
      case None => 0;
    (mask, requestedMinBits.GetOr(0))
  }

  /** The granted mask holds only bits the miner asked for, and every
      allowed bit it asked for. */
  lemma GrantedBits(requestedMask: bv32, minBits: Option<bv32>)
    ensures var granted := Sv1Rolling(Some(requestedMask), minBits).0;
      granted & requestedMask == granted && requestedMask & AllowedMask & !granted == 0
  {
  }

  /** Asking again for the mask that was granted grants it unchanged. */
  lemma RollingMaskIdempotent(requestedMask: Option<bv32>, minBits: Option<bv32>)
    ensures var granted := Sv1Rolling(requestedMask, minBits).0;
      Sv1Rolling(Some(granted), minBits).0 == granted
  {
  }

  /** A task as the runtime knows it; aborting it is a call into the
      runtime, recorded here by the task's identity. */
  type TaskId = nat

  /** Owns the abort handles of one or more spawned tasks. */
  class AbortOnDrop {
    var handles: seq<TaskId>

    /** `AbortOnDrop::new` (and `From<JoinHandle>`): exactly the one handle. */
    constructor (handle: TaskId)
      ensures handles == [handle]
    {
      handles := [handle];
    }

    /** `is_finished`: true exactly when every held task has finished
        (vacuously true with no handle). */
    method IsFinished(finished: set<TaskId>) returns (r: bool)
      ensures r <==> forall i :: 0 <= i < |handles| ==> handles[i] in finished
    {
      var i := 0;
      while i < |handles|
        invariant 0 <= i <= |handles|
        invariant forall j :: 0 <= j < i ==> handles[j] in finished
      {
        if handles[i] !in finished {
          return false;
        }
        i := i + 1;
      }
      return true;
    }

    /** `add_task`: one more handle at the end, the others kept in order. */
    method AddTask(handle: TaskId)
      modifies this
      ensures handles == old(handles) + [handle]
    {
      handles := handles + [handle];
    }

    /** `drop`: every held task is aborted, in the order the handles were
        added; the result lists the abort calls made. */
    method Drop() returns (aborted: seq<TaskId>)
      ensures aborted == handles
    {
      aborted := [];
      for i := 0 to |handles|
        invariant aborted == handles[..i]
      {
        aborted := aborted + [handles[i]];
      }
    }
  }

  /** A signed 64-bit integer. */
  newtype i64 = x: int | -0x8000_0000_0000_0000 <= x < 0x8000_0000_0000_0000

  /** `UserId`'s `Display`: the id in decimal, with a '-' when negative. */
  function UserIdText(id: i64): (s: string)
    ensures |s| > 0 && (s[0] == '-' <==> id < 0)
    ensures SignedValue(s) == Some(id as int)
  {
    IntToStringRoundTrip(id as int);
    IntToString(id as int)
  }
}
