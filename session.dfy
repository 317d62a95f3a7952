/** The cinema-mode loop: receive a datagram, dispatch the whole frame, then ask
    terminate() whether to stop. */
module CinemaSession {
  import opened CinemaTopology
  import opened CinemaFrame

  /** One turn of the loop as the outside world drives it: the datagram that
      arrives, and what terminate() answers once that frame has been sent. */
  datatype Tick = Tick(datagram: seq<Byte>, stopRequested: bool)

  /** How the loop ends: terminate() returned true, an IndexError escaped, or
      (in this finite model) no further datagram has arrived yet. */
  datatype Exit = Stopped | Crashed | Listening

  /** The calls a run issued, how it ended, and how many datagrams it used. */
  datatype Run = Run(calls: seq<Call>, exit: Exit, frames: nat)

  /** What one turn of the loop produced: the frame dispatched for the
      datagram, and terminate()'s answer afterwards. */
  datatype Turn = Turn(frame: FrameResult, stopRequested: bool)

  function TurnOf(t: Topology, tick: Tick): (turn: Turn) {
    Turn(FrameOf(t, Receive(tick.datagram)), tick.stopRequested)
  }

  function Turns(t: Topology, ticks: seq<Tick>): (turns: seq<Turn>)
    ensures |turns| == |ticks|
    ensures forall j | 0 <= j < |ticks| :: turns[j] == TurnOf(t, ticks[j])
  {
    if ticks == [] then [] else [TurnOf(t, ticks[0])] + Turns(t, ticks[1..])
  }

  /** The while True loop: a frame that raises IndexError ends the run; a
      frame that went out whole is followed by the terminate() check. */
  function Loop(turns: seq<Turn>): (r: Run)
    ensures r.frames <= |turns|
  {
    if turns == [] then Run([], Listening, 0)
    else if turns[0].frame.failed then Run(turns[0].frame.calls, Crashed, 1)
    else if turns[0].stopRequested then Run(turns[0].frame.calls, Stopped, 1)
    else
      var rest := Loop(turns[1..]);
      Run(turns[0].frame.calls + rest.calls, rest.exit, rest.frames + 1)
  }

  /** The loop once the panel list has been split. */
  function Session(t: Topology, ticks: seq<Tick>): (r: Run) {
    Loop(Turns(t, ticks))
  }

  /** do_cinema_mode from the panel list on: splitting a list of fewer than
      three panels raises IndexError before anything is sent, and that is the
      only way the run crashes without using a datagram. */
  function CinemaMode(panels: seq<PanelId>, ticks: seq<Tick>): (r: Run)
    ensures r.frames <= |ticks|
    ensures r.exit == Crashed && r.frames == 0 <==> |panels| < 3
    ensures |panels| < 3 ==> r.calls == []
  {
    match Split(panels)
    case IndexError => Run([], Crashed, 0)
    case Ok(t) => Session(t, ticks)
  }

  /** Reference definition: the frames' calls appended one turn after another,
      as the stream records them. */
  function Dispatched(turns: seq<Turn>): (calls: seq<Call>)
  {
    if turns == [] then []
    else Dispatched(turns[..|turns| - 1]) + turns[|turns| - 1].frame.calls
  }

  lemma {:induction false} DispatchedCons(turn: Turn, turns: seq<Turn>)
    ensures Dispatched([turn] + turns) == turn.frame.calls + Dispatched(turns)
    decreases |turns|
  {
    var all := [turn] + turns;
    if turns != [] {
      var init := turns[..|turns| - 1];
      assert all[..|all| - 1] == [turn] + init;
      DispatchedCons(turn, init);
      AppendAssoc(turn.frame.calls, Dispatched(init), turns[|turns| - 1].frame.calls);
    } else {
      assert all[..|all| - 1] == [];
    }
  }

  lemma TakeCons<T>(s: seq<T>, n: nat)
    requires n < |s|
    ensures s[..n + 1] == [s[0]] + s[1..][..n]
  {
  }

  /** Every turn before the last one used sent a whole frame and was not asked
      to stop. */
  lemma {:induction false} LoopContinuesUntilExit(turns: seq<Turn>)
    ensures var r := Loop(turns);
      forall j | 0 <= j < r.frames - 1 :: !turns[j].frame.failed && !turns[j].stopRequested
  {
    if turns != [] && !turns[0].frame.failed && !turns[0].stopRequested {
      var rest := Loop(turns[1..]);
      LoopContinuesUntilExit(turns[1..]);
      forall j | 0 <= j < rest.frames
        ensures !turns[j].frame.failed && !turns[j].stopRequested
      {
        if j > 0 {
          assert turns[j] == turns[1..][j - 1];
        }
      }
    }
  }

  /** The run stops exactly when its last frame went out whole and terminate()
      then answered true; it crashes exactly when its last frame ran out of
      bytes; it is still listening exactly when it used every turn without
      either. */
  lemma {:induction false} LoopExit(turns: seq<Turn>)
    ensures var r := Loop(turns);
      (r.exit == Stopped <==> r.frames > 0 && !turns[r.frames - 1].frame.failed && turns[r.frames - 1].stopRequested) &&
      (r.exit == Crashed <==> r.frames > 0 && turns[r.frames - 1].frame.failed) &&
      (r.exit == Listening <==> r.frames == |turns| && forall j | 0 <= j < |turns| :: !turns[j].frame.failed && !turns[j].stopRequested)
  {
    if turns != [] && !turns[0].frame.failed && !turns[0].stopRequested {
      var rest := Loop(turns[1..]);
      LoopExit(turns[1..]);
      if rest.frames > 0 {
        assert turns[rest.frames] == turns[1..][rest.frames - 1];
      }
      if rest.exit == Listening {
        forall j | 0 <= j < |turns|
          ensures !turns[j].frame.failed && !turns[j].stopRequested
        {
          if j > 0 {
            assert turns[j] == turns[1..][j - 1];
          }
        }
      }
      if forall j | 0 <= j < |turns| :: !turns[j].frame.failed && !turns[j].stopRequested {
        forall j | 0 <= j < |turns[1..]|
          ensures !turns[1..][j].frame.failed && !turns[1..][j].stopRequested
        {
          assert turns[1..][j] == turns[j + 1];
        }
      }
    }
  }

  /** What the run sent is the frames of the turns it used, appended one after
      the other. */
  lemma {:induction false} LoopSendsFramesInOrder(turns: seq<Turn>)
    ensures var r := Loop(turns); r.calls == Dispatched(turns[..r.frames])
  {
    var r := Loop(turns);
    if turns == [] {
      assert turns[..0] == [];
    } else if turns[0].frame.failed || turns[0].stopRequested {
      assert turns[..1] == [turns[0]] + [];
      DispatchedCons(turns[0], []);
    } else {
      var rest := Loop(turns[1..]);
      LoopSendsFramesInOrder(turns[1..]);
      TakeCons(turns, rest.frames);
      DispatchedCons(turns[0], turns[1..][..rest.frames]);
    }
  }

  /** A stop request never cuts a frame short: a run that stops has sent every
      frame it received in full, and the last turn it used is the one where
      terminate() answered true. */
  lemma StoppedRunSendsWholeFrames(t: Topology, ticks: seq<Tick>)
    requires Session(t, ticks).exit == Stopped
    ensures var r := Session(t, ticks);
      r.frames > 0 && ticks[r.frames - 1].stopRequested &&
      (forall j | 0 <= j < r.frames - 1 :: !ticks[j].stopRequested) &&
      (forall j | 0 <= j < r.frames :: 3 * |t.ring| <= |Receive(ticks[j].datagram)|) &&
      r.calls == Dispatched(Turns(t, ticks)[..r.frames])
  {
    var turns := Turns(t, ticks);
    var r := Loop(turns);
    LoopExit(turns);
    LoopContinuesUntilExit(turns);
    LoopSendsFramesInOrder(turns);
    assert turns[r.frames - 1] == TurnOf(t, ticks[r.frames - 1]);
    forall j | 0 <= j < r.frames - 1
      ensures !ticks[j].stopRequested
    {
      assert turns[j] == TurnOf(t, ticks[j]);
    }
    forall j | 0 <= j < r.frames
      ensures 3 * |t.ring| <= |Receive(ticks[j].datagram)|
    {
      assert turns[j] == TurnOf(t, ticks[j]);
      if j < r.frames - 1 {
        assert !turns[j].frame.failed;
      } else {
        assert j == r.frames - 1;
      }
    }
  }

  lemma {:induction false} WholeFramesLength(turns: seq<Turn>, n: nat)
    requires forall j | 0 <= j < |turns| :: |turns[j].frame.calls| == n
    ensures |Dispatched(turns)| == n * |turns|
  {
    if turns != [] {
      var init := turns[..|turns| - 1];
      WholeFramesLength(init, n);
      assert |Dispatched(turns)| == |Dispatched(init)| + n;
      assert n * |turns| == n * |init| + n;
    }
  }

  /** With distinct IDs and a ring of at least two panels, a run that stops
      has sent exactly one call per reported panel for each frame. */
  lemma DistinctStoppedRunLength(panels: seq<PanelId>, ticks: seq<Tick>)
    requires |panels| >= 4 && Distinct(panels)
    requires CinemaMode(panels, ticks).exit == Stopped
    ensures var r := CinemaMode(panels, ticks);
      |r.calls| == r.frames * |panels|
  {
    var t := Split(panels).value;
    var r := Session(t, ticks);
    var turns := Turns(t, ticks);
    SplitReassembles(panels);
    StoppedRunSendsWholeFrames(t, ticks);
    var used := turns[..r.frames];
    forall j | 0 <= j < |used|
      ensures |used[j].frame.calls| == |panels|
    {
      DistinctFrameCalls(panels, Receive(ticks[j].datagram));
    }
    WholeFramesLength(used, |panels|);
  }

  /** The fixture's effect stream, seen as the record of the calls made on it. */
  class EffectStream {
    var sent: seq<Call>

    constructor ()
      ensures sent == []
    {
      sent := [];
    }

    method PanelSet(panel: PanelId, red: Byte, green: Byte, blue: Byte)
      modifies this
      ensures sent == old(sent) + [Call.PanelSet(panel, Rgb(red, green, blue))]
    {
      sent := sent + [Call.PanelSet(panel, Rgb(red, green, blue))];
    }
  }

  /** The body of the for loop for one ring panel: the mirror branches,
      which compare panel identifiers. */
  method SetZone(strm: EffectStream, t: Topology, panel: PanelId, red: Byte, green: Byte, blue: Byte)
    modifies strm
    ensures strm.sent == old(strm.sent) + ZoneCalls(t, panel, Rgb(red, green, blue))
  {
    ghost var c := Rgb(red, green, blue);
    if panel == t.lower || panel == t.first {
      strm.PanelSet(t.lower, red, green, blue);
      strm.PanelSet(t.first, red, green, blue);
      AppendAssoc(old(strm.sent), [Call.PanelSet(t.lower, c)], [Call.PanelSet(t.first, c)]);
    } else if panel == t.upper || panel == t.last {
      strm.PanelSet(t.upper, red, green, blue);
      strm.PanelSet(t.last, red, green, blue);
      AppendAssoc(old(strm.sent), [Call.PanelSet(t.upper, c)], [Call.PanelSet(t.last, c)]);
    } else {
      strm.PanelSet(panel, red, green, blue);
    }
  }

  /** The for loop over the ring for one received buffer. It returns false where
      the source raises IndexError, after the calls of the earlier zones. */
  method DispatchFrame(strm: EffectStream, t: Topology, rgb: seq<Byte>) returns (ok: bool)
    modifies strm
    ensures strm.sent == old(strm.sent) + FrameOf(t, rgb).calls
    ensures ok == !FrameOf(t, rgb).failed
  {
    var panelCount := 0;
    while panelCount < |t.ring|
      invariant panelCount <= |t.ring| && 3 * panelCount <= |rgb|
      invariant strm.sent == old(strm.sent) + Calls(t, rgb, panelCount)
    {
      var firstByteIndex := panelCount * 3;
      var secondByteIndex := firstByteIndex + 1;
      var thirdByteIndex := secondByteIndex + 1;
      var panel := t.ring[panelCount];
      if thirdByteIndex >= |rgb| {
        ZonesReceivedExact(|t.ring|, |rgb|, panelCount);
        return false;
      }
      var red, green, blue := rgb[firstByteIndex], rgb[secondByteIndex], rgb[thirdByteIndex];
      SetZone(strm, t, panel, red, green, blue);
      CallsStep(t, rgb, panelCount);
      AppendAssoc(old(strm.sent), Calls(t, rgb, panelCount), ZoneCalls(t, panel, ZoneColour(rgb, panelCount)));
      panelCount := panelCount + 1;
    }
    ZonesReceivedExact(|t.ring|, |rgb|, |t.ring|);
    return true;
  }

  /** One turn of the loop, read at position i. */
  lemma LoopStep(turns: seq<Turn>, i: nat)
    requires i < |turns|
    ensures var f := turns[i].frame; var r := Loop(turns[i..]);
      if f.failed then r.calls == f.calls && r.exit == Crashed
      else if turns[i].stopRequested then r.calls == f.calls && r.exit == Stopped
      else r.calls == f.calls + Loop(turns[i + 1..]).calls && r.exit == Loop(turns[i + 1..]).exit
  {
    assert turns[i..][0] == turns[i];
    assert turns[i..][1..] == turns[i + 1..];
  }

  /** do_cinema_mode over the given panel list and datagrams: the calls it makes
      and how it ends are those of CinemaMode. */
  method DoCinemaMode(panels: seq<PanelId>, ticks: seq<Tick>) returns (exit: Exit, sent: seq<Call>)
    ensures exit == CinemaMode(panels, ticks).exit
    ensures sent == CinemaMode(panels, ticks).calls
  {
    var split := Split(panels);
    if split.IndexError? {
      return Crashed, [];
    }
    var t := split.value;
    ghost var turns := Turns(t, ticks);
    var strm := new EffectStream();
    var i := 0;
    exit := Listening;
    assert turns[0..] == turns;
    while i < |ticks|
      invariant i <= |ticks|
      invariant exit == Listening
      invariant Loop(turns).exit == Loop(turns[i..]).exit
      invariant Loop(turns).calls == strm.sent + Loop(turns[i..]).calls
    {
      var rgb := Receive(ticks[i].datagram);
      ghost var before := strm.sent;
      var ok := DispatchFrame(strm, t, rgb);
      LoopStep(turns, i);
      if !ok {
        exit := Crashed;
        break;
      }
      if ticks[i].stopRequested {
        exit := Stopped;
        break;
      }
      AppendAssoc(before, turns[i].frame.calls, Loop(turns[i + 1..]).calls);
      i := i + 1;
    }
    sent := strm.sent;
  }
}
