/** The Water Rides page: a fixed table of rides, a case-insensitive name
    search, the "Rides Open" summary, the status badge, the Service button and
    the capacity colour. */
module WaterRides {

  import opened Text
  import opened Filters
  import opened Capacity
  import opened Ui

  /** The fields of a ride record that the page's logic reads. */
  datatype Ride = Ride(id: string, name: string, status: string, capacity: nat, currentGuests: nat)

  const WaterRidesData: seq<Ride> := [
    Ride("WR001", "Tsunami Wave Pool", "open", 150, 89),
    Ride("WR002", "Aqua Tornado Slide", "open", 20, 12),
    Ride("WR003", "Lazy River Paradise", "maintenance", 100, 0),
    Ride("WR004", "Kids Splash Zone", "open", 80, 45),
    Ride("WR005", "Extreme Drop Slide", "open", 15, 8),
    Ride("WR006", "Family Raft Adventure", "maintenance", 30, 0)
  ]

  predicate MatchesSearch(r: Ride, searchTerm: string) {
    IncludesIgnoringCase(r.name, searchTerm)
  }

  /** `filteredRides`: the rides whose name contains the search term, ignoring case, in table order. */
  function FilteredRides(data: seq<Ride>, searchTerm: string): (r: seq<Ride>)
    ensures IsSubsequence(r, data)
    ensures forall x :: x in r <==> x in data && exists i :: OccursAt(ToLower(x.name), ToLower(searchTerm), i)
    ensures forall x :: multiset(r)[x] == if MatchesSearch(x, searchTerm) then multiset(data)[x] else 0
  {
    var keep := (x: Ride) => MatchesSearch(x, searchTerm);
    FilterIsSubsequence(data, keep);
    FilterExact(data, keep);
    FilterMultisetExact(data, keep);
    SearchMeaning(searchTerm);
    Filter(data, keep)
  }

  lemma SearchMeaning(searchTerm: string)
    ensures forall x: Ride :: MatchesSearch(x, searchTerm) <==>
      exists i :: OccursAt(ToLower(x.name), ToLower(searchTerm), i)
  {
    forall x: Ride
      ensures MatchesSearch(x, searchTerm) <==> exists i :: OccursAt(ToLower(x.name), ToLower(searchTerm), i)
    {
      IncludesIgnoringCaseMeaning(x.name, searchTerm);
    }
  }

  /** The initial, empty search shows every ride in table order. */
  lemma EmptySearchKeepsAll(data: seq<Ride>)
    ensures FilteredRides(data, "") == data
  {
    forall i | 0 <= i < |data| ensures MatchesSearch(data[i], "") {
      EmptyNeedleAlwaysIncluded(data[i].name);
    }
    FilterKeepsAll(data, (x: Ride) => MatchesSearch(x, ""));
  }

  /** `waterRidesData.filter(r => r.status === "open").length`. */
  function OpenCount(data: seq<Ride>): (n: nat)
    ensures n <= |data|
    ensures n == 0 <==> forall i :: 0 <= i < |data| ==> data[i].status != "open"
  {
    Count(data, (x: Ride) => x.status == "open")
  }

  /** The summary card reads "4/6". */
  lemma SeedOpenCount()
    ensures OpenCount(WaterRidesData) == 4 && |WaterRidesData| == 6
  {
  }

  /** `getStatusBadge`: "Open" exactly for status "open", "Maintenance" for every other status. */
  function StatusBadge(status: string): (caption: string)
    ensures caption == "Open" <==> status == "open"
    ensures caption == "Maintenance" <==> status != "open"
  {
    if status == "open" then "Open" else "Maintenance"
  }

  /** The Service button: disabled and labelled "In Service" exactly for status "maintenance". */
  function ServiceButton(status: string): (b: Button)
    ensures !b.enabled <==> status == "maintenance"
    ensures b.caption == "In Service" <==> !b.enabled
    ensures b.enabled ==> b.caption == "Service"
  {
    Button(status != "maintenance", if status == "maintenance" then "In Service" else "Service")
  }

  /** Every seed ride is either open or under maintenance. */
  lemma SeedStatusesKnown()
    ensures forall x :: x in WaterRidesData ==> x.status == "open" || x.status == "maintenance"
  {
  }

  /** On the seed table a ride is badged "Maintenance" exactly when its Service button is disabled. */
  lemma SeedBadgeAgreesWithButton()
    ensures forall x :: x in WaterRidesData ==> (StatusBadge(x.status) == "Maintenance" <==> !ServiceButton(x.status).enabled)
  {
    SeedStatusesKnown();
  }

  /** The agreement depends on the seed statuses: any third status is badged "Maintenance" yet keeps an enabled Service button. */
  lemma BadgeAndButtonDisagreeOnOtherStatus(status: string)
    requires status != "open" && status != "maintenance"
    ensures StatusBadge(status) == "Maintenance" && ServiceButton(status) == Button(true, "Service")
  {
  }

  /** The capacity colour of each seed ride (89/150, 12/20, 0/100, 45/80, 8/15, 0/30). */
  lemma SeedCapacityColors()
    ensures [CapacityColor(89, 150), CapacityColor(12, 20), CapacityColor(0, 100),
             CapacityColor(45, 80), CapacityColor(8, 15), CapacityColor(0, 30)]
         == [Green, Yellow, Green, Green, Green, Green]
  {
  }

  /** Occupancy never exceeds capacity in the seed table (nothing in the page checks it). */
  lemma SeedWithinCapacity()
    ensures forall x :: x in WaterRidesData ==> x.currentGuests <= x.capacity
  {
  }
}
