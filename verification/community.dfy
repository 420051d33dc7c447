/**
 * The state of the Community screen: the selected tab and the sub-view it
 * shows, the starting state of the location-permission drawer, and the
 * placement arithmetic of the `vertical()` layout modifier used for the
 * rotated side labels.
 */
module Community {
  import opened Wrappers

  /** The tab titles, in the order the tab row shows them (`cList`). */
  const TabTitles: seq<string> := ["Challenges", "Clubs", "Posts"]

  /** The three sub-views a tab can show. */
  datatype View = Challenges | Clubs | Posts

  /** The title of the tab that leads to a view. */
  function Title(v: View): string {
    match v
    case Challenges => "Challenges"
    case Clubs => "Clubs"
    case Posts => "Posts"
  }

  /**
   * The `when (tabIndex)` dispatch: an index of the tab row selects its
   * view; any other index (which no click produces) selects none.
   */
  function ViewFor(tabIndex: int): (v: Option<View>)
    ensures v.Some? <==> 0 <= tabIndex < |TabTitles|
    ensures v.Some? ==> Title(v.value) == TabTitles[tabIndex]
  {
    if tabIndex == 0 then Some(Challenges)
    else if tabIndex == 1 then Some(Clubs)
    else if tabIndex == 2 then Some(Posts)
    else None
  }

  /** Different tabs show different views. */
  lemma ViewForInjective(i: int, j: int)
    requires 0 <= i < |TabTitles| && 0 <= j < |TabTitles|
    ensures ViewFor(i) == ViewFor(j) ==> i == j
  {
    if ViewFor(i) == ViewFor(j) {
      assert TabTitles[i] == Title(ViewFor(i).value) == TabTitles[j];
    }
  }

  /** The `selected` flag of the tab at `index`. */
  predicate TabSelected(tabIndex: int, index: int): (r: bool)
    ensures r ==> ViewFor(tabIndex) == ViewFor(index)
  {
    tabIndex == index
  }

  /** The indices of the tabs drawn as selected. */
  function SelectedTabs(tabIndex: int): set<int> {
    set index | 0 <= index < |TabTitles| && TabSelected(tabIndex, index)
  }

  /** In every reachable state exactly one tab, the current one, is selected. */
  lemma ExactlyOneTabSelected(tabIndex: int)
    requires 0 <= tabIndex < |TabTitles|
    ensures SelectedTabs(tabIndex) == {tabIndex}
    ensures |SelectedTabs(tabIndex)| == 1
  {
    assert tabIndex in SelectedTabs(tabIndex);
  }

  /** The screen's `tabIndex` state. */
  class CommunityTabs {
    var tabIndex: int

    /** Every reachable index names one of the tabs. */
    ghost predicate Valid()
      reads this
    {
      0 <= tabIndex < |TabTitles|
    }

    /** The screen opens on the first tab. */
    constructor ()
      ensures Valid() && tabIndex == 0
      ensures ViewFor(tabIndex) == Some(Challenges)
    {
      tabIndex := 0;
    }

    /** A click on the tab at `index` of the tab row selects it. */
    method ClickTab(index: int)
      requires Valid()
      requires 0 <= index < |TabTitles|
      modifies this
      ensures Valid() && tabIndex == index
      ensures ViewFor(tabIndex).Some?
      ensures old(tabIndex) == index ==> unchanged(this)
    {
      tabIndex := index;
    }
  }

  /** The two resting states of the bottom drawer. */
  datatype DrawerValue = Closed | Open

  /** The permission drawer starts closed when every permission is already granted. */
  function InitialDrawer(allPermissionsGranted: bool): (d: DrawerValue)
    ensures d == Closed <==> allPermissionsGranted
    ensures d == Open <==> !allPermissionsGranted
  {
    if allPermissionsGranted then Closed else Open
  }

  /** The size a layout reports and the offset at which it places its child. */
  datatype Placement = Placement(width: int, height: int, x: int, y: int)

  /**
   * `Modifier.vertical()`: given the child's measured width and height,
   * report the swapped size and place the child so that its centre falls on
   * the centre of the reported box (in whole pixels, halves rounded down).
   */
  function Vertical(width: nat, height: nat): (p: Placement)
    ensures p.width == height && p.height == width
    ensures p.x == -p.y
    ensures p.x + width / 2 == p.width / 2 && p.y + height / 2 == p.height / 2
    ensures width == height ==> p.x == 0 && p.y == 0
  {
    Placement(height, width, -(width / 2 - height / 2), -(height / 2 - width / 2))
  }
}
