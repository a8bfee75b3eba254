/** The collision detector's state: one tree from callsigns to positions,
    brought up to date frame by frame. */
module CollisionDetector {
  import opened Options
  import opened RbtClass

  datatype Aircraft<P> = Aircraft(callsign: int, position: P)

  datatype Motion<P> = Motion(callsign: int, posOne: P, posTwo: P)

  /** The positions after a frame's reports, in order, on top of m. */
  function Reported<P>(m: map<int, P>, frame: seq<Aircraft<P>>): map<int, P>
  {
    if frame == [] then m
    else Reported(m, frame[..|frame| - 1])[frame[|frame| - 1].callsign := frame[|frame| - 1].position]
  }

  /** The latest position each callsign reports in a frame, and nothing else. */
  function Latest<P>(frame: seq<Aircraft<P>>): map<int, P> { Reported(map[], frame) }

  function MotionFrom<P>(m: map<int, P>, a: Aircraft<P>): Motion<P>
  {
    Motion(a.callsign, if a.callsign in m then m[a.callsign] else a.position, a.position)
  }

  /** The motions of a frame whose predecessor left the positions m. */
  function Motions<P>(m: map<int, P>, frame: seq<Aircraft<P>>): (r: seq<Motion<P>>)
    ensures |r| == |frame|
  {
    if frame == [] then []
    else
      var init := frame[..|frame| - 1];
      Motions(m, init) + [MotionFrom(Reported(m, init), frame[|frame| - 1])]
  }

  class Detector<P> {
    var state: Rbt<P>

    constructor ()
      ensures fresh(state) && state.Valid() && state.Map() == map[]
    {
      state := new Rbt();
    }

    /** handle_new_frame up to the collision tests: after it the state holds
        exactly the frame's callsigns at their latest positions, and the motions
        start where the previous state had each callsign. */
    method HandleNewFrame(frame: seq<Aircraft<P>>) returns (motions: seq<Motion<P>>)
      requires state.Valid()
      modifies state
      ensures state.Valid() && state.Map() == Latest(frame)
      ensures motions == Motions(old(state.Map()), frame)
    {
      hide *;
      motions := [];
      var seen := new Rbt<bool>();
      ghost var m := state.Map();
      NoFrame(m, frame);
      for i := 0 to |frame|
        invariant state.Valid() && seen.Valid() && fresh(seen)
        invariant state.Map() == Reported(m, frame[..i])
        invariant seen.Map().Keys == Latest(frame[..i]).Keys && (forall k :: k in seen.Map() ==> seen.Map()[k])
        invariant motions == Motions(m, frame[..i])
      {
        var a := frame[i];
        FrameStep(m, frame, i);
        FrameStep(map[], frame, i);
        var previous := state.Put(a.callsign, a.position);
        var _ := seen.Put(a.callsign, true);
        motions := motions + [Motion(a.callsign, if previous.Some? then previous.value else a.position, a.position)];
      }
      WholeFrame(m, frame);
      var toRemove := Departed(state, seen);
      PrefixNone(toRemove, Reported(m, frame));
      for i := 0 to |toRemove|
        invariant state.Valid()
        invariant state.Map() == Reported(m, frame) - Prefix(toRemove, i)
      {
        var _ := state.Remove(toRemove[i]);
        PrefixStep(toRemove, i, Reported(m, frame));
      }
      OnlyLatest(m, frame, toRemove);
    }

    /** The callsigns of the state that the frame did not report. */
    static method Departed(state: Rbt<P>, seen: Rbt<bool>) returns (toRemove: seq<int>)
      requires state.Valid() && seen.Valid() && forall k :: k in seen.Map() ==> seen.Map()[k]
      ensures forall k :: k in toRemove <==> k in state.Map() && k !in seen.Map()
    {
      toRemove := [];
      var visited := state.ForEach();
      for i := 0 to |visited|
        invariant forall k :: k in toRemove <==> k !in seen.Map() && exists j :: 0 <= j < i && visited[j].0 == k
      {
        var s := seen.Get(visited[i].0);
        if s != Some(true) { toRemove := toRemove + [visited[i].0]; }
      }
    }

    /** The benchmark's loop over the frames of a run, from an empty state. */
    method Run(frames: seq<seq<Aircraft<P>>>) returns (all: seq<seq<Motion<P>>>)
      requires state.Valid() && state.Map() == map[]
      modifies state
      ensures |all| == |frames|
      ensures forall k :: 0 <= k < |frames| ==>
          all[k] == Motions(if k == 0 then map[] else Latest(frames[k - 1]), frames[k])
      ensures state.Valid() && state.Map() == if frames == [] then map[] else Latest(frames[|frames| - 1])
    {
      hide *;
      all := [];
      for i := 0 to |frames|
        invariant state.Valid() && state.Map() == if i == 0 then map[] else Latest(frames[i - 1])
        invariant |all| == i
        invariant forall k :: 0 <= k < i ==>
            all[k] == Motions(if k == 0 then map[] else Latest(frames[k - 1]), frames[k])
      {
        var motions := HandleNewFrame(frames[i]);
        all := all + [motions];
      }
    }
  }

  // ── What the folds mean ─────────────────────────────────────────────

  lemma FrameStep<P>(m: map<int, P>, frame: seq<Aircraft<P>>, i: nat)
    requires i < |frame|
    ensures Reported(m, frame[..i + 1]) == Reported(m, frame[..i])[frame[i].callsign := frame[i].position]
    ensures Motions(m, frame[..i + 1]) == Motions(m, frame[..i]) + [MotionFrom(Reported(m, frame[..i]), frame[i])]
    ensures Latest(frame) == Reported(map[], frame) && Latest(frame[..i + 1]) == Reported(map[], frame[..i + 1])
    ensures Latest(frame[..i]) == Reported(map[], frame[..i])
    ensures var p := Reported(m, frame[..i]);
            var a := frame[i];
            MotionFrom(p, a) == Motion(a.callsign, if a.callsign in p then p[a.callsign] else a.position, a.position)
  {
    assert frame[..i + 1][..i] == frame[..i];
  }

  lemma NoFrame<P>(m: map<int, P>, frame: seq<Aircraft<P>>)
    ensures Reported(m, frame[..0]) == m && Motions(m, frame[..0]) == [] && Latest(frame[..0]) == map[]
  {}

  lemma WholeFrame<P>(m: map<int, P>, frame: seq<Aircraft<P>>)
    ensures frame[..|frame|] == frame && Latest(frame) == Reported(map[], frame)
  {}

  ghost function Prefix(s: seq<int>, i: nat): set<int>
    requires i <= |s|
  {
    set j | 0 <= j < i :: s[j]
  }

  lemma PrefixNone<P>(s: seq<int>, m: map<int, P>)
    ensures m - Prefix(s, 0) == m
  {}

  lemma PrefixStep<P>(s: seq<int>, i: nat, m: map<int, P>)
    requires i < |s|
    ensures m - Prefix(s, i) - {s[i]} == m - Prefix(s, i + 1)
  {}

  /** Reports on top of m change only what the frame reports. */
  lemma {:induction false} ReportedSplit<P>(m: map<int, P>, frame: seq<Aircraft<P>>)
    ensures Reported(m, frame) == m + Latest(frame)
  {
    if frame != [] { ReportedSplit(m, frame[..|frame| - 1]); }
  }

  lemma OnlyLatest<P>(m: map<int, P>, frame: seq<Aircraft<P>>, gone: seq<int>)
    requires forall k :: k in gone <==> k in Reported(m, frame) && k !in Latest(frame)
    ensures Reported(m, frame) - Prefix(gone, |gone|) == Latest(frame)
  {
    hide Reported, Latest;
    ReportedSplit(m, frame);
    var all, l := Reported(m, frame), Latest(frame);
    assert forall k :: k in Prefix(gone, |gone|) <==> k in gone;
    assert forall k :: k in all - Prefix(gone, |gone|) <==> k in l;
  }

  /** The last report of callsign k before index i, or -1. */
  function LastReport<P>(frame: seq<Aircraft<P>>, k: int, i: nat): (j: int)
    requires i <= |frame|
    ensures -1 <= j < i && (j >= 0 ==> frame[j].callsign == k) && forall l :: j < l < i ==> frame[l].callsign != k
  {
    if i == 0 then -1 else if frame[i - 1].callsign == k then i - 1 else LastReport(frame, k, i - 1)
  }

  lemma {:induction false} ReportedAt<P>(m: map<int, P>, frame: seq<Aircraft<P>>, k: int)
    ensures var j := LastReport(frame, k, |frame|);
            && (k in Reported(m, frame) <==> j >= 0 || k in m)
            && (j >= 0 ==> Reported(m, frame)[k] == frame[j].position)
            && (j < 0 && k in m ==> Reported(m, frame)[k] == m[k])
  {
    if frame != [] {
      var init := frame[..|frame| - 1];
      ReportedAt(m, init, k);
      LastReportPrefix(frame, k, |frame| - 1);
    }
  }

  lemma {:induction false} LastReportPrefix<P>(frame: seq<Aircraft<P>>, k: int, i: nat)
    requires i < |frame|
    ensures LastReport(frame[..|frame| - 1], k, i) == LastReport(frame, k, i)
  {
    if i > 0 { LastReportPrefix(frame, k, i - 1); }
  }

  /** Each motion ends at its report and starts at the callsign's previous
      position: an earlier report of the same frame if there is one, else where
      the previous state had it, else the report itself. */
  lemma {:induction false} MotionMeaning<P>(m: map<int, P>, frame: seq<Aircraft<P>>, i: nat)
    requires i < |frame|
    ensures var a := frame[i];
            var j := LastReport(frame, a.callsign, i);
            var start := if j >= 0 then frame[j].position else if a.callsign in m then m[a.callsign] else a.position;
            Motions(m, frame)[i] == Motion(a.callsign, start, a.position)
  {
    var init := frame[..|frame| - 1];
    if i == |frame| - 1 {
      ReportedAt(m, init, frame[i].callsign);
      LastReportPrefix(frame, frame[i].callsign, i);
    } else {
      MotionMeaning(m, init, i);
      LastReportPrefix(frame, frame[i].callsign, i);
    }
  }

  /** The state after a frame: its callsigns, each at its last report. */
  lemma LatestMeaning<P>(frame: seq<Aircraft<P>>, k: int)
    ensures k in Latest(frame) <==> exists i :: 0 <= i < |frame| && frame[i].callsign == k
    ensures k in Latest(frame) ==> Latest(frame)[k] == frame[LastReport(frame, k, |frame|)].position
  {
    ReportedAt(map[], frame, k);
  }
}
