/** `EagleSubtitlePlugin.findSubtitleForTime`,
    eagle-subtitle-plugin-v1.0.0-fixed/main.js:364-387: the cue to show at
    a playback time, found by binary search over the loaded cues. The time
    is in milliseconds, like the cues' times, and may be negative once a
    time offset has been applied. A cue covers the times from its start to
    its end, both included. The search relies on the cues being in play
    order without overlap: the search is proved complete only for such
    lists, and whatever it returns covers the time on any list. */
module Lookup {
  import opened Results
  import opened Cues

  /** A cue is shown at every time from its start to its end, both
      instants included. */
  predicate Covers(c: Cue, time: int)
  {
    c.startMs <= time <= c.endMs
  }

  /** Cues in play order: each ends no earlier than it starts, and no later
      than any later cue starts (two cues may share a boundary instant). */
  predicate Ordered(cues: seq<Cue>)
  {
    && (forall k :: 0 <= k < |cues| ==> cues[k].startMs <= cues[k].endMs)
    && (forall i, j :: 0 <= i < j < |cues| ==> cues[i].endMs <= cues[j].startMs)
  }

  /** Cues in play order that do not even share a boundary instant. */
  predicate Separated(cues: seq<Cue>)
  {
    && (forall k :: 0 <= k < |cues| ==> cues[k].startMs <= cues[k].endMs)
    && (forall i, j :: 0 <= i < j < |cues| ==> cues[i].endMs < cues[j].startMs)
  }

  /** The reference answer: the first cue, in list order, that covers `time`. */
  function FirstCovering(cues: seq<Cue>, time: int): (r: Option<nat>)
    ensures r.Some? ==> r.value < |cues| && Covers(cues[r.value], time)
    ensures r.Some? ==> forall k :: 0 <= k < r.value ==> !Covers(cues[k], time)
    ensures r.None? <==> forall k :: 0 <= k < |cues| ==> !Covers(cues[k], time)
  {
    if |cues| == 0 then None
    else if Covers(cues[0], time) then Some(0)
    else match FirstCovering(cues[1..], time)
      case None => None
      case Some(k) => Some(k + 1)
  }

  /** In separated cues a covering cue is the only one, so it is the
      first. */
  lemma OnlyCovering(cues: seq<Cue>, time: int, m: nat)
    requires Separated(cues) && m < |cues| && Covers(cues[m], time)
    ensures FirstCovering(cues, time) == Some(m)
  {
    forall k | 0 <= k < |cues| && k != m
      ensures !Covers(cues[k], time)
    {
      if k < m {
        assert cues[k].endMs < cues[m].startMs;
      } else {
        assert cues[m].endMs < cues[k].startMs;
      }
    }
  }

  /** The binary search of `findSubtitleForTime`. An empty list gives
      nothing; a cue it returns is one of the cues and covers the time; on
      cues in play order it finds a covering cue whenever there is one, and
      on separated cues that is the first covering cue. */
  method FindCueAt(cues: seq<Cue>, time: int) returns (r: Option<Cue>)
    ensures |cues| == 0 ==> r.None?
    ensures r.Some? ==> r.value in cues && Covers(r.value, time)
    ensures Ordered(cues) ==> (r.None? <==> forall k :: 0 <= k < |cues| ==> !Covers(cues[k], time))
    ensures Separated(cues) && r.Some? ==>
              FirstCovering(cues, time).Some? && r.value == cues[FirstCovering(cues, time).value]
  {
    if |cues| == 0 {
      return None;
    }
    var left: int := 0;
    var right: int := |cues| - 1;
    while left <= right
      invariant 0 <= left && right < |cues|
      invariant Ordered(cues) ==>
                  forall k :: 0 <= k < |cues| && Covers(cues[k], time) ==> left <= k <= right
      decreases right - left
    {
      var mid := (left + right) / 2;
      var subtitle := cues[mid];
      if time >= subtitle.startMs && time <= subtitle.endMs {
        if Separated(cues) {
          OnlyCovering(cues, time, mid);
        }
        return Some(subtitle);
      } else if time < subtitle.startMs {
        right := mid - 1;
      } else {
        left := mid + 1;
      }
    }
    return None;
  }
}
