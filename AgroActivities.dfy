/** The Agro Activities page: a fixed table of farm activities, a
    case-insensitive name search, the "Activities Open" summary, the status
    badge, the Manage button and the participants colour. */
module AgroActivities {

  import opened Text
  import opened Filters
  import opened Capacity
  import opened Ui

  /** The fields of an activity record that the page's logic reads. */
  datatype Activity = Activity(id: string, name: string, status: string, capacity: nat, currentGuests: nat)

  const AgroActivitiesData: seq<Activity> := [
    Activity("AG001", "Tractor Safari Adventure", "open", 25, 18),
    Activity("AG002", "Pottery Workshop", "open", 15, 8),
    Activity("AG003", "Animal Feeding Experience", "maintenance", 20, 0),
    Activity("AG004", "Organic Garden Tour", "open", 30, 22),
    Activity("AG005", "Cheese Making Workshop", "open", 12, 5),
    Activity("AG006", "Horseback Riding", "open", 10, 6)
  ]

  predicate MatchesSearch(a: Activity, searchTerm: string) {
    IncludesIgnoringCase(a.name, searchTerm)
  }

  /** `filteredActivities`: the activities whose name contains the search term, ignoring case, in table order. */
  function FilteredActivities(data: seq<Activity>, searchTerm: string): (r: seq<Activity>)
    ensures IsSubsequence(r, data)
    ensures forall a :: a in r <==> a in data && exists i :: OccursAt(ToLower(a.name), ToLower(searchTerm), i)
    ensures forall a :: multiset(r)[a] == if MatchesSearch(a, searchTerm) then multiset(data)[a] else 0
  {
    var keep := (a: Activity) => MatchesSearch(a, searchTerm);
    FilterIsSubsequence(data, keep);
    FilterExact(data, keep);
    FilterMultisetExact(data, keep);
    SearchMeaning(searchTerm);
    Filter(data, keep)
  }

  lemma SearchMeaning(searchTerm: string)
    ensures forall a: Activity :: MatchesSearch(a, searchTerm) <==>
      exists i :: OccursAt(ToLower(a.name), ToLower(searchTerm), i)
  {
    forall a: Activity
      ensures MatchesSearch(a, searchTerm) <==> exists i :: OccursAt(ToLower(a.name), ToLower(searchTerm), i)
    {
      IncludesIgnoringCaseMeaning(a.name, searchTerm);
    }
  }

  /** The initial, empty search shows every activity in table order. */
  lemma EmptySearchKeepsAll(data: seq<Activity>)
    ensures FilteredActivities(data, "") == data
  {
    forall i | 0 <= i < |data| ensures MatchesSearch(data[i], "") {
      EmptyNeedleAlwaysIncluded(data[i].name);
    }
    FilterKeepsAll(data, (a: Activity) => MatchesSearch(a, ""));
  }

  /** `agroActivitiesData.filter(a => a.status === "open").length`. */
  function OpenCount(data: seq<Activity>): (n: nat)
    ensures n <= |data|
    ensures n == 0 <==> forall i :: 0 <= i < |data| ==> data[i].status != "open"
  {
    Count(data, (a: Activity) => a.status == "open")
  }

  /** The summary card reads "5/6". */
  lemma SeedOpenCount()
    ensures OpenCount(AgroActivitiesData) == 5 && |AgroActivitiesData| == 6
  {
  }

  /** `getStatusBadge`: "Active" exactly for status "open", "Closed" for every other status. */
  function StatusBadge(status: string): (caption: string)
    ensures caption == "Active" <==> status == "open"
    ensures caption == "Closed" <==> status != "open"
  {
    if status == "open" then "Active" else "Closed"
  }

  /** The Manage button: disabled and labelled "Closed" exactly for status "maintenance". */
  function ManageButton(status: string): (b: Button)
    ensures !b.enabled <==> status == "maintenance"
    ensures b.caption == "Closed" <==> !b.enabled
    ensures b.enabled ==> b.caption == "Manage"
  {
    Button(status != "maintenance", if status == "maintenance" then "Closed" else "Manage")
  }

  /** Every seed activity is either open or under maintenance. */
  lemma SeedStatusesKnown()
    ensures forall a :: a in AgroActivitiesData ==> a.status == "open" || a.status == "maintenance"
  {
  }

  /** On the seed table the badge and the button agree: an activity shows "Active" exactly when it can be managed. */
  lemma SeedBadgeAgreesWithButton()
    ensures forall a :: a in AgroActivitiesData ==> (StatusBadge(a.status) == "Active" <==> ManageButton(a.status).enabled)
  {
    SeedStatusesKnown();
  }

  /** The agreement depends on the seed statuses: any third status is badged "Closed" yet keeps an enabled Manage button. */
  lemma BadgeAndButtonDisagreeOnOtherStatus(status: string)
    requires status != "open" && status != "maintenance"
    ensures StatusBadge(status) == "Closed" && ManageButton(status) == Button(true, "Manage")
  {
  }

  /** The participants colour of each seed activity (18/25, 8/15, 0/20, 22/30, 5/12, 6/10). */
  lemma SeedParticipantColors()
    ensures [CapacityColor(18, 25), CapacityColor(8, 15), CapacityColor(0, 20),
             CapacityColor(22, 30), CapacityColor(5, 12), CapacityColor(6, 10)]
         == [Yellow, Green, Green, Yellow, Green, Yellow]
  {
  }

  /** Occupancy never exceeds capacity in the seed table (nothing in the page checks it). */
  lemma SeedWithinCapacity()
    ensures forall a :: a in AgroActivitiesData ==> a.currentGuests <= a.capacity
  {
  }
}
