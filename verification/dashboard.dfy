/**
 The monitoring dashboard of static/script.js with the map and the page left
 out: what it derives from the configured units and their sampled link status.
 That is the colour of each unit's marker, the panel of offline links, the
 ordered list of units with their links, and the show/hide toggle of a unit's
 links.
 */
module Dashboard {
  import opened Wrappers
  import PyDict

  /** A monitored link of a unit: its name and address. */
  datatype Link = Link(name: string, ip: string)

  /** A unit on the map, with its links in declaration order (coordinates left out). */
  datatype Unit = Unit(name: string, links: seq<Link>)

  function Names(units: seq<Unit>): (ns: seq<string>)
    ensures |ns| == |units|
    ensures forall i | 0 <= i < |units| :: ns[i] == units[i].name
  {
    seq(|units|, i requires 0 <= i < |units| => units[i].name)
  }

  function LinkNames(u: Unit): (ns: seq<string>)
    ensures |ns| == |u.links|
    ensures forall i | 0 <= i < |u.links| :: ns[i] == u.links[i].name
  {
    seq(|u.links|, i requires 0 <= i < |u.links| => u.links[i].name)
  }

  /** The units form an object literal: unit names, and each unit's link names, are distinct. */
  predicate WellFormed(units: seq<Unit>) {
    && PyDict.Distinct(Names(units))
    && forall u <- units :: PyDict.Distinct(LinkNames(u))
  }

  /** `UNITS[name]`. */
  function FindUnit(units: seq<Unit>, name: string): (r: Option<Unit>)
    ensures r.Some? <==> name in Names(units)
    ensures r.Some? ==> r.value in units && r.value.name == name
  {
    if |units| == 0 then None
    else if units[0].name == name then Some(units[0])
    else
      var r := FindUnit(units[1..], name);
      assert Names(units) == [units[0].name] + Names(units[1..]);
      r
  }

  /** With distinct names, looking a unit up by its name finds that unit. */
  lemma {:induction false} FindUnitFinds(units: seq<Unit>, u: Unit)
    requires PyDict.Distinct(Names(units)) && u in units
    ensures FindUnit(units, u.name) == Some(u)
    decreases |units|
  {
    if units[0] != u {
      assert u in units[1..];
      var j :| 0 <= j < |units[1..]| && units[1..][j] == u;
      assert Names(units)[j + 1] == u.name;
      assert Names(units[1..]) == Names(units)[1..];
      FindUnitFinds(units[1..], u);
    }
  }

  /** `UNITS[unit].links[link]`, which is `undefined` for an unknown link. */
  function FindIp(links: seq<Link>, name: string): (ip: Option<string>)
    ensures ip.Some? <==> exists l <- links :: l.name == name
    ensures ip.Some? ==> Link(name, ip.value) in links
  {
    if |links| == 0 then None
    else if links[0].name == name then Some(links[0].ip)
    else FindIp(links[1..], name)
  }

  /** Link status by unit, then by link: `true` is online. */
  type StatusData = map<string, map<string, bool>>

  // ---------------------------------------------------------------------------
  // Status sampling
  // ---------------------------------------------------------------------------

  /** One unit's link statuses; `sample` stands for the random draw. */
  function SampleUnit(u: Unit, sample: (string, string) -> bool): (links: map<string, bool>)
    ensures forall l :: l in links <==> l in LinkNames(u)
    ensures forall l <- links.Keys :: links[l] == sample(u.name, l)
  {
    map l | l in LinkNames(u) :: sample(u.name, l)
  }

  /**
   The status table rebuilt on every refresh: an entry for every unit, holding
   exactly that unit's links, each with its sampled status.
   */
  function SampleStatus(units: seq<Unit>, sample: (string, string) -> bool): (sd: StatusData)
    requires WellFormed(units)
    ensures forall n :: n in sd <==> n in Names(units)
    ensures forall u <- units :: sd[u.name] == SampleUnit(u, sample)
    ensures OfflineUnitsKnown(units, sd)
  {
    var sd := map n | n in Names(units) :: SampleUnit(FindUnit(units, n).value, sample);
    forall u <- units ensures sd[u.name] == SampleUnit(u, sample) {
      FindUnitFinds(units, u);
      var found := FindUnit(units, u.name);
      assert found == Some(u) && u.name in Names(units);
      assert sd[u.name] == SampleUnit(found.value, sample);
    }
    sd
  }

  // ---------------------------------------------------------------------------
  // Markers
  // ---------------------------------------------------------------------------

  datatype Marker = Green | Red  // a red marker blinks

  predicate HasOfflineLink(links: map<string, bool>) {
    exists l <- links.Keys :: !links[l]
  }

  /** The marker of every unit that has both a status entry and a marker. */
  function MarkerColors(sd: StatusData, markers: set<string>): (m: map<string, Marker>)
    ensures m.Keys == sd.Keys * markers
    ensures forall u <- m.Keys :: m[u] == Red <==> HasOfflineLink(sd[u])
  {
    map u | u in sd.Keys * markers :: if HasOfflineLink(sd[u]) then Red else Green
  }

  /** A unit turns red because of any one offline link, and stays green with no links. */
  lemma MarkerFacts(sd: StatusData, markers: set<string>, u: string)
    requires u in sd && u in markers
    ensures |sd[u]| == 0 ==> MarkerColors(sd, markers)[u] == Green
    ensures (forall l <- sd[u].Keys :: sd[u][l]) ==> MarkerColors(sd, markers)[u] == Green
    ensures (exists l <- sd[u].Keys :: !sd[u][l]) ==> MarkerColors(sd, markers)[u] == Red
  {
  }

  // ---------------------------------------------------------------------------
  // Offline panel
  // ---------------------------------------------------------------------------

  /** An offline link as the panel lists it; `since` is the time it was listed. */
  datatype OfflineInfo = OfflineInfo(ip: Option<string>, since: string)

  type OfflineUnits = map<string, map<string, OfflineInfo>>

  /** Reading `UNITS[unit]` for a unit with an offline link must succeed. */
  predicate OfflineUnitsKnown(units: seq<Unit>, sd: StatusData) {
    forall u <- sd.Keys :: HasOfflineLink(sd[u]) ==> u in Names(units)
  }

  function LinkIp(units: seq<Unit>, unit: string, link: string): Option<string>
    requires unit in Names(units)
  {
    FindIp(FindUnit(units, unit).value.links, link)
  }

  /**
   The offline table: every unit of the status table gets an entry, holding
   exactly its links whose status is offline. `clock` is the current local time.
   */
  function OfflineLinks(units: seq<Unit>, sd: StatusData, clock: string): (off: OfflineUnits)
    requires OfflineUnitsKnown(units, sd)
    ensures off.Keys == sd.Keys
    ensures forall u <- off.Keys, l :: l in off[u] <==> l in sd[u] && !sd[u][l]
    ensures forall u <- off.Keys, l <- off[u].Keys :: off[u][l] == OfflineInfo(LinkIp(units, u, l), clock)
  {
    map u | u in sd :: map l | l in sd[u] && !sd[u][l] :: OfflineInfo(LinkIp(units, u, l), clock)
  }

  /** Each red marker has offline links in the panel; each green one has none. */
  lemma MarkersAgreeWithPanel(units: seq<Unit>, sd: StatusData, clock: string, markers: set<string>)
    requires OfflineUnitsKnown(units, sd)
    ensures var m := MarkerColors(sd, markers);
      var off := OfflineLinks(units, sd, clock);
      forall u <- m.Keys :: m[u] == Red <==> |off[u]| > 0
  {
    var m := MarkerColors(sd, markers);
    var off := OfflineLinks(units, sd, clock);
    forall u <- m.Keys
      ensures m[u] == Red <==> |off[u]| > 0
    {
      if HasOfflineLink(sd[u]) {
        var l :| l in sd[u] && !sd[u][l];
        assert l in off[u];
      }
    }
  }

  /** The placeholder test as the page writes it: the offline table has no units. */
  predicate ShowsPlaceholderAsWritten(off: OfflineUnits) {
    |off| == 0
  }

  /**
   Since every unit of the status table has an entry in the offline table, the
   placeholder as written appears only when the status table has no units.
   */
  lemma PlaceholderAsWrittenNeedsNoUnits(units: seq<Unit>, sd: StatusData, clock: string)
    requires OfflineUnitsKnown(units, sd)
    ensures ShowsPlaceholderAsWritten(OfflineLinks(units, sd, clock)) <==> |sd| == 0
  {
    var off := OfflineLinks(units, sd, clock);
    assert off.Keys == sd.Keys;
  }

  /** A unit whose links are all online gets neither an offline line nor the placeholder. */
  lemma PlaceholderAsWrittenMissesAllOnline()
    ensures var units := [Unit("Manaus", [])];
      var sd := SampleStatus(units, (u, l) => true);
      var off := OfflineLinks(units, sd, "");
      && (forall u <- sd.Keys, l <- sd[u].Keys :: sd[u][l])
      && PagePanel(off).items == {}
      && !PagePanel(off).placeholder
  {
    var units := [Unit("Manaus", [])];
    var sd := SampleStatus(units, (u, l) => true);
    assert units[0] in units;
    assert "Manaus" in sd;
  }

  /** The panel: one line per offline link, and whether the placeholder line is shown. */
  datatype Panel = Panel(items: set<(string, string)>, placeholder: bool)

  /** The lines of the panel: one per link of the offline table. */
  function PanelItems(off: OfflineUnits): (items: set<(string, string)>)
    ensures forall u, l :: (u, l) in items <==> u in off && l in off[u]
  {
    set u, l | u in off && l in off[u] :: (u, l)
  }

  /**
   The panel as the page draws it: the placeholder is decided by the number of
   units in the offline table, not by the number of lines.
   */
  function PagePanel(off: OfflineUnits): (p: Panel)
    ensures forall u, l :: (u, l) in p.items <==> u in off && l in off[u]
    ensures p.placeholder ==> p.items == {}
  {
    Panel(PanelItems(off), ShowsPlaceholderAsWritten(off))
  }

  /** The corrected panel: the placeholder appears exactly when there is no line. */
  function CorrectedPanel(off: OfflineUnits): (p: Panel)
    ensures forall u, l :: (u, l) in p.items <==> u in off && l in off[u]
    ensures p.placeholder <==> p.items == {}
  {
    var items := PanelItems(off);
    Panel(items, items == {})
  }

  /** The corrected panel shows the placeholder exactly when no link of the status table is offline. */
  lemma PlaceholderIffNothingOffline(units: seq<Unit>, sd: StatusData, clock: string)
    requires OfflineUnitsKnown(units, sd)
    ensures CorrectedPanel(OfflineLinks(units, sd, clock)).placeholder
        <==> forall u <- sd.Keys :: !HasOfflineLink(sd[u])
  {
    var off := OfflineLinks(units, sd, clock);
    var p := CorrectedPanel(off);
    if !p.placeholder {
      var x :| x in p.items;
      assert x.1 in off[x.0];
    }
    if exists u <- sd.Keys :: HasOfflineLink(sd[u]) {
      var u :| u in sd && HasOfflineLink(sd[u]);
      var l :| l in sd[u] && !sd[u][l];
      assert (u, l) in p.items;
    }
  }

  // ---------------------------------------------------------------------------
  // Unit list
  // ---------------------------------------------------------------------------

  datatype LinkItem = LinkItem(name: string, ip: string, online: bool)

  /** Whether a unit's links are shown, and the text of its toggle button. */
  datatype Toggle = Toggle(shown: bool, button: string)

  /** A freshly built unit: links hidden behind a "+" button. */
  const Collapsed: Toggle := Toggle(false, "+")

  datatype UnitElement = UnitElement(name: string, selected: bool, links: seq<LinkItem>, toggle: Toggle)

  /**
   The link items of unit `u`, listed under the name `name`: one per configured
   link, in order. A link is shown online only when the status table has the
   unit and says the link is online; a missing unit or link reads as offline.
   */
  function LinkItems(u: Unit, sd: StatusData, name: string): (items: seq<LinkItem>)
    ensures |items| == |u.links|
    ensures forall i | 0 <= i < |u.links| ::
      && items[i].name == u.links[i].name
      && items[i].ip == u.links[i].ip
      && (items[i].online <==> name in sd && u.links[i].name in sd[name] && sd[name][u.links[i].name])
  {
    var status := (l: string) => if name in sd then l in sd[name] && sd[name][l] else false;
    seq(|u.links|, i requires 0 <= i < |u.links| => LinkItem(u.links[i].name, u.links[i].ip, status(u.links[i].name)))
  }

  /** The list entry of a unit: its link items, hidden behind a "+" button. */
  function CreateUnitElement(units: seq<Unit>, sd: StatusData, name: string, isSelected: bool): (e: UnitElement)
    requires name in Names(units)
    ensures e.name == name && e.selected == isSelected && e.toggle == Collapsed
    ensures e.links == LinkItems(FindUnit(units, name).value, sd, name)
  {
    UnitElement(name, isSelected, LinkItems(FindUnit(units, name).value, sd, name), Collapsed)
  }

  /** A link of a unit missing from the status table is shown offline. */
  lemma MissingUnitShowsOffline(units: seq<Unit>, sd: StatusData, name: string, isSelected: bool)
    requires name in Names(units) && name !in sd
    ensures forall item <- CreateUnitElement(units, sd, name, isSelected).links :: !item.online
  {
    var items := LinkItems(FindUnit(units, name).value, sd, name);
    forall item <- items ensures !item.online {
      var i :| 0 <= i < |items| && items[i] == item;
    }
  }

  /** A truthy selection: a unit name other than the empty string. */
  predicate IsSelection(selected: Option<string>) {
    selected.Some? && selected.value != ""
  }

  /** The names of the units other than the selected one, in configuration order. */
  function OtherNames(units: seq<Unit>, selected: Option<string>): (ns: seq<string>)
    ensures forall n <- ns :: n in Names(units) && Some(n) != selected
    ensures forall n <- Names(units) :: Some(n) != selected ==> n in ns
    ensures PyDict.Distinct(Names(units)) ==> PyDict.Distinct(ns)
  {
    if selected.Some? then PyDict.Without(Names(units), selected.value) else Names(units)
  }

  /** `e` is the entry `createUnitElement` builds for its unit. */
  predicate BuiltEntry(units: seq<Unit>, sd: StatusData, e: UnitElement) {
    e.name in Names(units) && e == CreateUnitElement(units, sd, e.name, e.selected)
  }

  /** The names the list shows, in order: the selection, if any, then every other unit. */
  function ListNames(units: seq<Unit>, selected: Option<string>): (ns: seq<string>)
    requires IsSelection(selected) ==> selected.value in Names(units)
    ensures forall n <- ns :: n in Names(units)
  {
    (if IsSelection(selected) then [selected.value] else []) + OtherNames(units, selected)
  }

  /** The list of units: the selected unit first, then every other unit in order. */
  function UnitsList(units: seq<Unit>, sd: StatusData, selected: Option<string>): (list: seq<UnitElement>)
    requires IsSelection(selected) ==> selected.value in Names(units)
    ensures |list| == |ListNames(units, selected)|
    ensures forall i | 0 <= i < |list| :: list[i].name == ListNames(units, selected)[i]
    ensures forall i | 0 <= i < |list| :: list[i].selected <==> (i == 0 && IsSelection(selected))
    ensures forall e <- list :: BuiltEntry(units, sd, e)
  {
    Elements(units, sd, ListNames(units, selected), IsSelection(selected))
  }

  /** One entry per name, in order; only the first is marked selected, and only if `firstSelected`. */
  function Elements(units: seq<Unit>, sd: StatusData, ns: seq<string>, firstSelected: bool): (list: seq<UnitElement>)
    requires forall n <- ns :: n in Names(units)
    ensures |list| == |ns|
    ensures forall i | 0 <= i < |list| :: list[i].name == ns[i]
    ensures forall i | 0 <= i < |list| :: list[i].selected <==> (i == 0 && firstSelected)
    ensures forall e <- list :: BuiltEntry(units, sd, e)
  {
    var list := seq(|ns|, i requires 0 <= i < |ns| => CreateUnitElement(units, sd, ns[i], i == 0 && firstSelected));
    forall e <- list ensures BuiltEntry(units, sd, e) {
      var i :| 0 <= i < |list| && list[i] == e;
    }
    list
  }

  /** The names shown by the list, in order. */
  function ElementNames(list: seq<UnitElement>): seq<string> {
    seq(|list|, i requires 0 <= i < |list| => list[i].name)
  }

  /**
   With no selection or a selected unit, the list names every unit exactly once:
   the same names as the configuration, none repeated.
   */
  lemma UnitsListIsPermutation(units: seq<Unit>, sd: StatusData, selected: Option<string>)
    requires WellFormed(units)
    requires selected.Some? ==> selected.value in Names(units) && selected.value != ""
    ensures var ns := ElementNames(UnitsList(units, sd, selected));
      && PyDict.Distinct(ns)
      && forall n :: n in ns <==> n in Names(units)
  {
    assert ElementNames(UnitsList(units, sd, selected)) == ListNames(units, selected);
    var others := OtherNames(units, selected);
    if selected.Some? {
      ConsDistinct(selected.value, others);
    }
  }

  lemma ConsDistinct(x: string, s: seq<string>)
    requires PyDict.Distinct(s) && x !in s
    ensures PyDict.Distinct([x] + s)
  {
    var ns := [x] + s;
    forall i, j | 0 <= i < j < |ns| ensures ns[i] != ns[j] {
      assert ns[j] == s[j - 1];
      if i > 0 {
        assert ns[i] == s[i - 1];
      }
    }
  }

  // ---------------------------------------------------------------------------
  // Show/hide toggle
  // ---------------------------------------------------------------------------

  /** The button says "-" while the links are shown and "+" while they are hidden. */
  predicate ButtonMatches(t: Toggle) {
    t.button == if t.shown then "-" else "+"
  }

  function ToggleLinks(t: Toggle): (t': Toggle)
    ensures t'.shown == !t.shown
    ensures ButtonMatches(t')
  {
    if t.shown then Toggle(false, "+") else Toggle(true, "-")
  }

  /** Toggling twice restores a toggle whose button matched its state. */
  lemma ToggleTwice(t: Toggle)
    requires ButtonMatches(t)
    ensures ToggleLinks(ToggleLinks(t)) == t
  {
  }

  // ---------------------------------------------------------------------------
  // A refresh of the whole page
  // ---------------------------------------------------------------------------

  datatype View = View(
    statusData: StatusData,
    markers: map<string, Marker>,
    offline: OfflineUnits,
    panel: Panel,
    list: seq<UnitElement>)

  /**
   One periodic refresh: new sampled statuses, the offline table and panel,
   the unit list and the marker colours. The panel is drawn as the page draws it.
   */
  function Refresh(units: seq<Unit>, sample: (string, string) -> bool, clock: string, selected: Option<string>): (v: View)
    requires WellFormed(units)
    requires IsSelection(selected) ==> selected.value in Names(units)
    ensures v.panel.items == PanelItems(v.offline)
  {
    var sd := SampleStatus(units, sample);
    var off := OfflineLinks(units, sd, clock);
    View(sd, MarkerColors(sd, sd.Keys), off, PagePanel(off), UnitsList(units, sd, selected))
  }

  /** The same refresh with the corrected placeholder rule. */
  function CorrectedRefresh(units: seq<Unit>, sample: (string, string) -> bool, clock: string, selected: Option<string>): (v: View)
    requires WellFormed(units)
    requires IsSelection(selected) ==> selected.value in Names(units)
    ensures v.panel.placeholder <==> v.panel.items == {}
  {
    var v := Refresh(units, sample, clock, selected);
    v.(panel := CorrectedPanel(v.offline))
  }

  /**
   After a refresh every configured unit has a status entry, a marker and an
   entry in the offline table, and the marker colours and the offline table
   agree. The placeholder, as the page decides it, shows only when no unit is
   configured at all.
   */
  lemma RefreshIsCoherent(units: seq<Unit>, sample: (string, string) -> bool, clock: string, selected: Option<string>)
    requires WellFormed(units)
    requires IsSelection(selected) ==> selected.value in Names(units)
    ensures var v := Refresh(units, sample, clock, selected);
      && (forall n :: n in v.statusData <==> n in Names(units))
      && v.markers.Keys == v.offline.Keys == v.statusData.Keys
      && (forall u <- v.markers.Keys :: v.markers[u] == Red <==> |v.offline[u]| > 0)
      && (v.panel.placeholder <==> |units| == 0)
  {
    var v := Refresh(units, sample, clock, selected);
    var sd := SampleStatus(units, sample);
    var off := OfflineLinks(units, sd, clock);
    assert v.statusData == sd && v.offline == off;
    assert v.markers == MarkerColors(sd, sd.Keys) && v.panel == PagePanel(off);
    MarkerKeys(sd);
    MarkersAgreeWithPanel(units, sd, clock, sd.Keys);
    PlaceholderAsWrittenNeedsNoUnits(units, sd, clock);
    if |units| > 0 {
      assert Names(units)[0] in sd;
    }
  }

  /**
   The corrected refresh agrees with the page everywhere but the placeholder,
   which it shows exactly when no sampled link is offline.
   */
  lemma CorrectedRefreshIsCoherent(units: seq<Unit>, sample: (string, string) -> bool, clock: string, selected: Option<string>)
    requires WellFormed(units)
    requires IsSelection(selected) ==> selected.value in Names(units)
    ensures var v := Refresh(units, sample, clock, selected);
      var c := CorrectedRefresh(units, sample, clock, selected);
      && c.statusData == v.statusData && c.markers == v.markers && c.offline == v.offline
      && c.list == v.list && c.panel.items == v.panel.items
      && (c.panel.placeholder <==> forall u <- c.statusData.Keys :: !HasOfflineLink(c.statusData[u]))
  {
    var sd := SampleStatus(units, sample);
    PlaceholderIffNothingOffline(units, sd, clock);
  }

  lemma MarkerKeys(sd: StatusData)
    ensures MarkerColors(sd, sd.Keys).Keys == sd.Keys
  {
    assert sd.Keys * sd.Keys == sd.Keys;
  }

  /** After a refresh every link item of the list shows the status just sampled. */
  lemma RefreshListShowsSample(units: seq<Unit>, sample: (string, string) -> bool, clock: string, selected: Option<string>)
    requires WellFormed(units)
    requires IsSelection(selected) ==> selected.value in Names(units)
    ensures var v := Refresh(units, sample, clock, selected);
      forall e <- v.list, item <- e.links :: item.online == sample(e.name, item.name)
  {
  }
}
