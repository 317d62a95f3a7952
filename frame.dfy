/** One cinema-mode frame: the received RGB bytes become an ordered sequence of
    panel_set calls on the fixture's effect stream. */
module CinemaFrame {
  import opened CinemaTopology

  /** One element of the received bytearray. */
  type Byte = b: int | 0 <= b < 256

  /** The buffer size passed to recvfrom: three bytes for each of seven zones. */
  const RecvSize: nat := 21

  datatype Rgb = Rgb(red: Byte, green: Byte, blue: Byte)

  /** The record of one panel_set(panel, red, green, blue) call. */
  datatype Call = PanelSet(panel: PanelId, colour: Rgb)

  /** The bytes recvfrom(21) hands back for one datagram: a longer datagram is
      cut to its first 21 bytes. */
  function Receive(datagram: seq<Byte>): (rgb: seq<Byte>)
    ensures rgb <= datagram
    ensures |rgb| == if |datagram| < RecvSize then |datagram| else RecvSize
  {
    if |datagram| <= RecvSize then datagram else datagram[..RecvSize]
  }

  /** The colour of zone `zone`: bytes 3*zone, 3*zone+1 and 3*zone+2. */
  function ZoneColour(rgb: seq<Byte>, zone: nat): (c: Rgb)
    requires 3 * zone + 2 < |rgb|
  {
    Rgb(rgb[3 * zone], rgb[3 * zone + 1], rgb[3 * zone + 2])
  }

  /** How the sender lays out a frame: one triple per zone, in zone order. */
  function Encode(colours: seq<Rgb>): (rgb: seq<Byte>)
    ensures |rgb| == 3 * |colours|
  {
    if colours == [] then []
    else [colours[0].red, colours[0].green, colours[0].blue] + Encode(colours[1..])
  }

  /** A zone's colour, laid out again as the sender does, is exactly that
      zone's triple of received bytes. */
  lemma ZoneColourEncodes(rgb: seq<Byte>, zone: nat)
    requires 3 * zone + 2 < |rgb|
    ensures Encode([ZoneColour(rgb, zone)]) == rgb[3 * zone..3 * zone + 3]
  {
    var c := ZoneColour(rgb, zone);
    assert Encode([c]) == [c.red, c.green, c.blue] + Encode([]);
  }

  /** Reading zone `zone` of an encoded frame gives back that zone's colour. */
  lemma {:induction false} DecodeEncode(colours: seq<Rgb>, zone: nat)
    requires zone < |colours|
    ensures ZoneColour(Encode(colours), zone) == colours[zone]
  {
    var rgb := Encode(colours);
    var head := [colours[0].red, colours[0].green, colours[0].blue];
    assert rgb == head + Encode(colours[1..]);
    if zone > 0 {
      DecodeEncode(colours[1..], zone - 1);
      var tail := Encode(colours[1..]);
      assert rgb[3 * zone] == tail[3 * (zone - 1)];
      assert rgb[3 * zone + 1] == tail[3 * (zone - 1) + 1];
      assert rgb[3 * zone + 2] == tail[3 * (zone - 1) + 2];
    }
  }

  function Ids(calls: seq<Call>): (ids: seq<PanelId>)
    ensures |ids| == |calls|
    ensures forall k | 0 <= k < |calls| :: ids[k] == calls[k].panel
  {
    if calls == [] then [] else [calls[0].panel] + Ids(calls[1..])
  }

  /** The panel_set calls for one ring panel showing colour `c`. The branches
      compare panel identifiers: a panel equal to the lower anchor or to the
      ring's first panel writes the lower anchor and the first panel; failing
      that, one equal to the upper anchor or the ring's last panel writes the
      upper anchor and the last panel; any other panel writes itself. */
  function ZoneCalls(t: Topology, panel: PanelId, c: Rgb): (calls: seq<Call>)
    ensures |calls| == (if panel in {t.lower, t.first, t.upper, t.last} then 2 else 1)
  {
    if panel == t.lower || panel == t.first then [PanelSet(t.lower, c), PanelSet(t.first, c)]
    else if panel == t.upper || panel == t.last then [PanelSet(t.upper, c), PanelSet(t.last, c)]
    else [PanelSet(panel, c)]
  }

  /** Every call of a zone carries the zone's colour unchanged; the zone's own
      panel is always written; and a panel that matches the lower anchor or
      the first panel never reaches the upper-anchor branch. */
  lemma ZoneCallsShape(t: Topology, panel: PanelId, c: Rgb)
    ensures var calls := ZoneCalls(t, panel, c);
      (forall k | 0 <= k < |calls| :: calls[k].colour == c) &&
      panel in Ids(calls) &&
      (panel == t.lower || panel == t.first ==> forall k | 0 <= k < |calls| :: calls[k].panel in {t.lower, t.first})
  {
    var calls := ZoneCalls(t, panel, c);
    assert Ids(calls)[0] == calls[0].panel;
    if |calls| == 2 {
      assert Ids(calls)[1] == calls[1].panel;
    }
  }

  /** The calls of zones 0 .. zones-1, in the order the for loop issues them. */
  function Calls(t: Topology, rgb: seq<Byte>, zones: nat): (calls: seq<Call>)
    requires zones <= |t.ring| && 3 * zones <= |rgb|
    ensures zones <= |calls| <= 2 * zones
    decreases zones
  {
    if zones == 0 then []
    else Calls(t, rgb, zones - 1) + ZoneCalls(t, t.ring[zones - 1], ZoneColour(rgb, zones - 1))
  }

  /** One more zone appends that zone's calls. */
  lemma CallsStep(t: Topology, rgb: seq<Byte>, k: nat)
    requires k < |t.ring| && 3 * k + 3 <= |rgb|
    ensures Calls(t, rgb, k + 1) == Calls(t, rgb, k) + ZoneCalls(t, t.ring[k], ZoneColour(rgb, k))
  {
  }

  lemma AppendAssoc<T>(a: seq<T>, b: seq<T>, c: seq<T>)
    ensures a + (b + c) == (a + b) + c
  {
  }

  /** What one pass of the for loop leaves behind: the calls issued, and whether
      it stopped on an IndexError at a zone whose triple did not arrive. */
  datatype FrameResult = FrameResult(calls: seq<Call>, failed: bool)

  /** How many leading zones, out of `zones`, have their whole triple among
      `len` received bytes. */
  function ZonesReceived(zones: nat, len: nat): (k: nat)
    ensures k <= zones && 3 * k <= len
    ensures k < zones ==> len < 3 * k + 3
  {
    if 3 * zones <= len then zones else ZonesReceived(zones - 1, len)
  }

  lemma ZonesReceivedExact(zones: nat, len: nat, k: nat)
    requires k <= zones && 3 * k <= len && (k < zones ==> len < 3 * k + 3)
    ensures ZonesReceived(zones, len) == k
  {
  }

  /** The for loop stops with IndexError at the first zone whose triple is
      incomplete, after the calls of the zones before it. */
  function FrameOf(t: Topology, rgb: seq<Byte>): (f: FrameResult)
    ensures f.failed <==> |rgb| < 3 * |t.ring|
    ensures !f.failed ==> f.calls == Calls(t, rgb, |t.ring|)
  {
    var done := ZonesReceived(|t.ring|, |rgb|);
    FrameResult(Calls(t, rgb, done), done < |t.ring|)
  }

  /** The calls of a zone do not depend on bytes after that zone's triple. */
  lemma {:induction false} CallsIgnoreLaterBytes(t: Topology, rgb: seq<Byte>, more: seq<Byte>, zones: nat)
    requires zones <= |t.ring| && 3 * zones <= |rgb|
    ensures Calls(t, rgb, zones) == Calls(t, rgb + more, zones)
  {
    if zones > 0 {
      var z := zones - 1;
      CallsIgnoreLaterBytes(t, rgb, more, z);
      var all := rgb + more;
      assert all[3 * z] == rgb[3 * z] && all[3 * z + 1] == rgb[3 * z + 1] && all[3 * z + 2] == rgb[3 * z + 2];
      assert ZoneColour(rgb, z) == ZoneColour(all, z);
      CallsStep(t, rgb, z);
      CallsStep(t, all, z);
    }
  }

  /** The calls of zones k .. zones-1. */
  function CallsBetween(t: Topology, rgb: seq<Byte>, k: nat, zones: nat): (calls: seq<Call>)
    requires k <= zones <= |t.ring| && 3 * zones <= |rgb|
    decreases zones - k
  {
    if k == zones then []
    else CallsBetween(t, rgb, k, zones - 1) + ZoneCalls(t, t.ring[zones - 1], ZoneColour(rgb, zones - 1))
  }

  /** Later zones only append calls. */
  lemma {:induction false} CallsGrow(t: Topology, rgb: seq<Byte>, k: nat, zones: nat)
    requires k <= zones <= |t.ring| && 3 * zones <= |rgb|
    ensures Calls(t, rgb, zones) == Calls(t, rgb, k) + CallsBetween(t, rgb, k, zones)
    decreases zones - k
  {
    if k < zones {
      var z := zones - 1;
      CallsGrow(t, rgb, k, z);
      var zone := ZoneCalls(t, t.ring[z], ZoneColour(rgb, z));
      CallsStep(t, rgb, z);
      AppendAssoc(Calls(t, rgb, k), CallsBetween(t, rgb, k, z), zone);
    } else {
      assert Calls(t, rgb, k) + [] == Calls(t, rgb, k);
    }
  }

  /** A datagram too short for the ring emits exactly the calls of the zones
      whose triple arrived, which are the leading calls that any complete
      datagram with the same first bytes would emit, and no others. */
  lemma ShortFrameIsPrefix(t: Topology, rgb: seq<Byte>, more: seq<Byte>)
    requires 3 * |t.ring| <= |rgb + more|
    ensures FrameOf(t, rgb).calls <= FrameOf(t, rgb + more).calls
    ensures |rgb| < 3 * |t.ring| ==> FrameOf(t, rgb).calls == Calls(t, rgb + more, |rgb| / 3)
  {
    if 3 * |t.ring| > |rgb| {
      var done := |rgb| / 3;
      ZonesReceivedExact(|t.ring|, |rgb|, done);
      CallsIgnoreLaterBytes(t, rgb, more, done);
      CallsGrow(t, rgb + more, done, |t.ring|);
      assert FrameOf(t, rgb).calls == Calls(t, rgb, done);
    } else {
      CallsIgnoreLaterBytes(t, rgb, more, |t.ring|);
    }
  }

  /** recvfrom(21) never delivers more than seven triples, so a frame is
      dispatched in full only if the ring has at most seven panels and the
      datagram carries a triple for each of them. */
  lemma WholeFrameNeedsSmallRing(t: Topology, datagram: seq<Byte>)
    ensures !FrameOf(t, Receive(datagram)).failed <==> 3 * |t.ring| <= |datagram| && |t.ring| <= 7
  {
  }

  /** A one-panel ring takes the first branch: the lower anchor and the panel
      are written, and the upper anchor is not, unless it shares their ID. */
  lemma SinglePanelRing(panels: seq<PanelId>, rgb: seq<Byte>)
    requires |panels| == 3 && 3 <= |rgb|
    ensures var t := Split(panels).value;
      Calls(t, rgb, 1) == [PanelSet(panels[0], ZoneColour(rgb, 0)), PanelSet(panels[1], ZoneColour(rgb, 0))] &&
      (Distinct(panels) ==> panels[2] !in Ids(Calls(t, rgb, 1)))
  {
    var t := Split(panels).value;
    assert Calls(t, rgb, 1) == Calls(t, rgb, 0) + ZoneCalls(t, t.ring[0], ZoneColour(rgb, 0));
  }

  /** Zones 0 .. k-1 of a ring with distinct IDs, before the last zone: the
      lower anchor, then each ring panel in order, with its zone's colour. */
  lemma {:induction false} DistinctLeadingCalls(panels: seq<PanelId>, rgb: seq<Byte>, k: nat)
    requires |panels| >= 4 && Distinct(panels)
    requires 1 <= k <= |panels| - 3 && 3 * k <= |rgb|
    ensures var t := Split(panels).value; var calls := Calls(t, rgb, k);
      |calls| == k + 1 &&
      calls[0] == PanelSet(panels[0], ZoneColour(rgb, 0)) &&
      forall j | 1 <= j <= k :: calls[j] == PanelSet(panels[j], ZoneColour(rgb, j - 1))
  {
    var t := Split(panels).value;
    SplitReassembles(panels);
    assert t.ring[0] == panels[1];
    if k > 1 {
      DistinctLeadingCalls(panels, rgb, k - 1);
      var p := t.ring[k - 1];
      assert p == panels[k];
      assert p != t.lower && p != t.first && p != t.upper && p != t.last by {
        assert t.lower == panels[0] && t.first == panels[1];
        assert t.upper == panels[|panels| - 1] && t.last == panels[|panels| - 2];
      }
      assert ZoneCalls(t, p, ZoneColour(rgb, k - 1)) == [PanelSet(panels[k], ZoneColour(rgb, k - 1))];
    }
  }

  /** With distinct IDs and a ring of N >= 2 panels, a whole frame is N+2 calls:
      the lower anchor and the first panel with zone 0's colour, each interior
      ring panel with its own zone's colour, then the upper anchor and the last
      panel with zone N-1's colour. */
  lemma DistinctFrameCalls(panels: seq<PanelId>, rgb: seq<Byte>)
    requires |panels| >= 4 && Distinct(panels) && 3 * (|panels| - 2) <= |rgb|
    ensures var t := Split(panels).value; var n := |panels| - 2; var calls := Calls(t, rgb, n);
      |calls| == n + 2 &&
      calls[0] == PanelSet(panels[0], ZoneColour(rgb, 0)) &&
      (forall j | 1 <= j < n :: calls[j] == PanelSet(panels[j], ZoneColour(rgb, j - 1))) &&
      calls[n] == PanelSet(panels[n + 1], ZoneColour(rgb, n - 1)) &&
      calls[n + 1] == PanelSet(panels[n], ZoneColour(rgb, n - 1))
  {
    var t := Split(panels).value;
    var n := |panels| - 2;
    SplitReassembles(panels);
    DistinctLeadingCalls(panels, rgb, n - 1);
    var p := t.ring[n - 1];
    assert p == panels[n] == t.last;
    assert p != t.lower && p != t.first;
    assert ZoneCalls(t, p, ZoneColour(rgb, n - 1)) == [PanelSet(t.upper, ZoneColour(rgb, n - 1)), PanelSet(t.last, ZoneColour(rgb, n - 1))];
  }

  /** Calls laid out as a distinct-ID frame writes them have the reported IDs
      with the last two swapped. */
  lemma FrameLayoutIds(calls: seq<Call>, panels: seq<PanelId>)
    requires |panels| >= 2 && |calls| == |panels|
    requires forall j | 0 <= j < |panels| - 2 :: calls[j].panel == panels[j]
    requires calls[|panels| - 2].panel == panels[|panels| - 1]
    requires calls[|panels| - 1].panel == panels[|panels| - 2]
    ensures Ids(calls) == panels[..|panels| - 2] + [panels[|panels| - 1], panels[|panels| - 2]]
  {
    var n := |panels| - 2;
    var ids := Ids(calls);
    assert ids[..n] == panels[..n];
    assert ids == ids[..n] + [ids[n], ids[n + 1]];
  }

  /** With distinct IDs and a ring of N >= 2 panels, the IDs a whole frame
      writes are the reported list with its last two entries swapped. */
  lemma DistinctFrameIds(panels: seq<PanelId>, rgb: seq<Byte>)
    requires |panels| >= 4 && Distinct(panels) && 3 * (|panels| - 2) <= |rgb|
    ensures var n := |panels| - 2;
      Ids(Calls(Split(panels).value, rgb, n)) == panels[..n] + [panels[n + 1], panels[n]]
  {
    var calls := Calls(Split(panels).value, rgb, |panels| - 2);
    DistinctFrameCalls(panels, rgb);
    FrameLayoutIds(calls, panels);
  }

  lemma SwapLastTwoKeepsMultiset<T>(s: seq<T>)
    requires |s| >= 2
    ensures multiset(s[..|s| - 2] + [s[|s| - 1], s[|s| - 2]]) == multiset(s)
  {
    var n := |s| - 2;
    assert s == s[..n] + [s[n], s[n + 1]];
    assert multiset([s[n + 1], s[n]]) == multiset([s[n], s[n + 1]]);
  }

  /** With distinct IDs and a ring of at least two panels, a whole frame writes
      every reported panel exactly once, both anchors included. */
  lemma DistinctFrameWritesEachPanelOnce(panels: seq<PanelId>, rgb: seq<Byte>)
    requires |panels| >= 4 && Distinct(panels) && 3 * (|panels| - 2) <= |rgb|
    ensures var t := Split(panels).value;
      multiset(Ids(FrameOf(t, rgb).calls)) == multiset(panels)
  {
    var t := Split(panels).value;
    assert |t.ring| == |panels| - 2;
    DistinctFrameIds(panels, rgb);
    SwapLastTwoKeepsMultiset(panels);
  }

  /** Panels 1..5 (lower 1, ring 2 3 4, upper 5) and the frame (10,20,30)
      (40,50,60) (70,80,90): panels 1 and 2 get the first colour, panel 3 the
      second, and panels 5 then 4 the third. */
  lemma FivePanelExample()
    ensures var t := Split([1, 2, 3, 4, 5]).value;
      var rgb: seq<Byte> := [10, 20, 30, 40, 50, 60, 70, 80, 90];
      FrameOf(t, rgb) == FrameResult([
        PanelSet(1, Rgb(10, 20, 30)), PanelSet(2, Rgb(10, 20, 30)),
        PanelSet(3, Rgb(40, 50, 60)),
        PanelSet(5, Rgb(70, 80, 90)), PanelSet(4, Rgb(70, 80, 90))], false)
  {
    var panels: seq<PanelId> := [1, 2, 3, 4, 5];
    var rgb: seq<Byte> := [10, 20, 30, 40, 50, 60, 70, 80, 90];
    DistinctFrameCalls(panels, rgb);
  }
}
