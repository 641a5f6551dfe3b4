/**
  The outside world the firmware update acts on: the iLO's virtual-media
  slots, the temporary directories that exist on the node, the directories
  that have a device mounted on them, and the trace of every action taken.
  Each action records whether its collaborator reported success, so its
  effect on the state follows from the action alone.
*/
module HostModel {

  datatype Action =
    | ValidateHref(url: string, ok: bool)
    | EjectMedia(slot: string, ok: bool)
    | InsertMedia(url: string, slot: string, ok: bool)
    | Settle(seconds: nat)
    | ListLabels(dir: string)
    | VerifyChecksum(device: string, checksum: string, ok: bool)
    | MakeTempDir(dir: string)
    | Mount(device: string, dir: string, ok: bool)
    | RunHpsum(args: seq<string>)
    | Umount(dir: string, ok: bool)
    | RemoveTree(dir: string)

  datatype HostState = HostState(media: map<string, string>, tempDirs: set<string>, mounted: set<string>)

  /** The effect of one action on the host. */
  function Step(s: HostState, a: Action): (t: HostState)
    ensures a.EjectMedia? && a.ok ==> t.media.Keys == s.media.Keys - {a.slot}
    ensures a.InsertMedia? && a.ok ==>
      t.media.Keys == s.media.Keys + {a.slot} && t.media[a.slot] == a.url
    ensures (a.EjectMedia? || a.InsertMedia?) && a.ok ==>
      forall k :: k in s.media && k != a.slot ==> k in t.media && t.media[k] == s.media[k]
    ensures a.MakeTempDir? ==> t.tempDirs == s.tempDirs + {a.dir}
    ensures a.RemoveTree? && a.dir !in s.mounted ==> t.tempDirs == s.tempDirs - {a.dir}
    ensures a.RemoveTree? && a.dir in s.mounted ==> t == s
    ensures a.Mount? && a.ok ==> t.mounted == s.mounted + {a.dir}
    ensures a.Umount? && a.ok ==> t.mounted == s.mounted - {a.dir}
    ensures !(a.EjectMedia? || a.InsertMedia?) || !a.ok ==> t.media == s.media
    ensures !(a.MakeTempDir? || a.RemoveTree?) ==> t.tempDirs == s.tempDirs
    ensures !(a.Mount? || a.Umount?) || !a.ok ==> t.mounted == s.mounted
  {
    match a
    case EjectMedia(slot, ok) => if ok then s.(media := s.media - {slot}) else s
    case InsertMedia(url, slot, ok) => if ok then s.(media := s.media[slot := url]) else s
    case MakeTempDir(dir) => s.(tempDirs := s.tempDirs + {dir})
    case Mount(_, dir, ok) => if ok then s.(mounted := s.mounted + {dir}) else s
    case Umount(dir, ok) => if ok then s.(mounted := s.mounted - {dir}) else s
    // `rmtree(..., ignore_errors=True)` cannot remove a directory that is still a mount point, and says nothing.
    case RemoveTree(dir) => if dir in s.mounted then s else s.(tempDirs := s.tempDirs - {dir})
    case _ => s
  }

  /** The state reached from `s` by performing the actions of `trace` in order. */
  function Replay(s: HostState, trace: seq<Action>): HostState
  {
    if trace == [] then s else Step(Replay(s, trace[..|trace| - 1]), trace[|trace| - 1])
  }

  /** Replaying two traces one after the other is replaying their concatenation. */
  lemma {:induction false} ReplayAppend(s: HostState, t: seq<Action>, u: seq<Action>)
    ensures Replay(s, t + u) == Replay(Replay(s, t), u)
    decreases |u|
  {
    if u != [] {
      var n := |u| - 1;
      assert (t + u)[..|t + u| - 1] == t + u[..n];
      ReplayAppend(s, t, u[..n]);
    } else {
      assert t + u == t;
    }
  }

  lemma ConcatAssoc<T>(a: seq<T>, b: seq<T>, c: seq<T>)
    ensures a + b + c == a + (b + c)
  {
  }

  /** Replaying one more action is taking its step. */
  lemma ReplaySnoc(s: HostState, t: seq<Action>, a: Action)
    ensures Replay(s, t + [a]) == Step(Replay(s, t), a)
  {
    assert (t + [a])[..|t|] == t;
  }

  /** A trace without virtual media calls leaves the media as they were. */
  lemma {:induction false} ReplayKeepsMedia(s: HostState, trace: seq<Action>)
    requires forall k :: 0 <= k < |trace| ==> !trace[k].EjectMedia? && !trace[k].InsertMedia?
    ensures Replay(s, trace).media == s.media
  {
    if trace != [] {
      ReplayKeepsMedia(s, trace[..|trace| - 1]);
    }
  }

  /** A trace without mount or umount actions leaves the mounts as they were. */
  lemma {:induction false} ReplayKeepsMounts(s: HostState, trace: seq<Action>)
    requires forall k :: 0 <= k < |trace| ==> !trace[k].Mount? && !trace[k].Umount?
    ensures Replay(s, trace).mounted == s.mounted
  {
    if trace != [] {
      ReplayKeepsMounts(s, trace[..|trace| - 1]);
    }
  }

  /** The node and the iLO as the update sees them; `initial` is the state before the first action. */
  class Host {
    var media: map<string, string>
    var tempDirs: set<string>
    var mounted: set<string>
    var trace: seq<Action>
    ghost var initial: HostState

    function State(): HostState
      reads this
    {
      HostState(media, tempDirs, mounted)
    }

    /** The current state is what the trace has done to the initial state. */
    ghost predicate Valid()
      reads this
    {
      State() == Replay(initial, trace)
    }

    constructor (media: map<string, string>, tempDirs: set<string>, mounted: set<string>)
      ensures Valid() && trace == []
      ensures State() == HostState(media, tempDirs, mounted)
    {
      this.media, this.tempDirs, this.mounted := media, tempDirs, mounted;
      trace := [];
      initial := HostState(media, tempDirs, mounted);
    }

    /** Performs one action: the state takes its effect and the trace records it. */
    method Perform(a: Action)
      requires Valid()
      modifies this
      ensures Valid() && initial == old(initial)
      ensures trace == old(trace) + [a]
      ensures State() == Step(old(State()), a)
    {
      var next := Step(State(), a);
      media, tempDirs, mounted := next.media, next.tempDirs, next.mounted;
      assert (trace + [a])[..|trace|] == trace;
      trace := trace + [a];
    }
  }
}
