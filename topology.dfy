/** Panel topology of cinema mode: the panel list reported by the fixture is cut
    into a lower anchor, a ring of zone panels and an upper anchor. */
module CinemaTopology {

  /** A panel identifier as the fixture's layout reports it. */
  type PanelId = int

  /** The only failure the core raises by itself is Python's IndexError. */
  datatype Outcome<T> = Ok(value: T) | IndexError

  /** The anchors, the ring (the panels driven by zones) and the ring's two ends. */
  datatype Topology = Topology(lower: PanelId, upper: PanelId, ring: seq<PanelId>, first: PanelId, last: PanelId)
  {
    predicate Valid() {
      |ring| >= 1 && first == ring[0] && last == ring[|ring| - 1]
    }
  }

  /** The split done at the top of do_cinema_mode. An empty list raises
      IndexError at `my_panels[0]`; a list of one or two panels leaves the ring
      empty and raises it at `PanelIDs[0]`. */
  function Split(panels: seq<PanelId>): (r: Outcome<Topology>)
    ensures r.Ok? <==> |panels| >= 3
    ensures r.Ok? ==> r.value.Valid()
  {
    if |panels| < 3 then IndexError
    else
      var ring := panels[1..|panels| - 1];
      Ok(Topology(panels[0], panels[|panels| - 1], ring, ring[0], ring[|ring| - 1]))
  }

  /** Putting the anchors back around the ring gives the reported list again,
      and the ring's ends are the second and the next-to-last panel. */
  lemma SplitReassembles(panels: seq<PanelId>)
    requires |panels| >= 3
    ensures var t := Split(panels).value;
      [t.lower] + t.ring + [t.upper] == panels &&
      t.first == panels[1] && t.last == panels[|panels| - 2] &&
      |t.ring| == |panels| - 2
  {
    var t := Split(panels).value;
    assert [t.lower] + t.ring + [t.upper] == [panels[0]] + panels[1..|panels| - 1] + [panels[|panels| - 1]];
    assert panels == [panels[0]] + panels[1..|panels| - 1] + [panels[|panels| - 1]];
  }

  /** No panel identifier is reported twice. */
  predicate Distinct(panels: seq<PanelId>) {
    forall i, j | 0 <= i < j < |panels| :: panels[i] != panels[j]
  }
}
