/** The Staff Management page: a fixed staff table, a three-part filter
    (search on name or role, department selector, status selector), the
    summary counts, the department colour and the status badge. */
module StaffManagement {

  import opened Text
  import opened Filters

  /** The fields of a staff record that the page's logic reads. */
  datatype Staff = Staff(id: string, name: string, role: string, department: string, status: string)

  const StaffData: seq<Staff> := [
    Staff("ST001", "John Miller", "Tractor Tour Guide", "Agro Activities", "active"),
    Staff("ST002", "Sarah Johnson", "Pottery Instructor", "Agro Activities", "active"),
    Staff("ST003", "Mike Chen", "Water Safety Lifeguard", "Water Rides", "on-leave"),
    Staff("ST004", "Lisa Anderson", "Garden Tour Guide", "Agro Activities", "active"),
    Staff("ST005", "Robert Wilson", "Maintenance Technician", "Maintenance", "active"),
    Staff("ST006", "Emma Davis", "Riding Instructor", "Agro Activities", "active"),
    Staff("ST007", "David Miller", "Slide Operator", "Water Rides", "inactive")
  ]

  /** The three filter inputs; `"all"` switches a selector off. */
  datatype Criteria = Criteria(searchTerm: string, departmentFilter: string, statusFilter: string)

  /** The state the page starts in. */
  const InitialCriteria := Criteria("", "all", "all")

  predicate MatchesSearch(s: Staff, searchTerm: string) {
    IncludesIgnoringCase(s.name, searchTerm) || IncludesIgnoringCase(s.role, searchTerm)
  }

  predicate MatchesDepartment(s: Staff, departmentFilter: string) {
    departmentFilter == "all" || s.department == departmentFilter
  }

  predicate MatchesStatus(s: Staff, statusFilter: string) {
    statusFilter == "all" || s.status == statusFilter
  }

  predicate Matches(s: Staff, c: Criteria) {
    MatchesSearch(s, c.searchTerm) && MatchesDepartment(s, c.departmentFilter) && MatchesStatus(s, c.statusFilter)
  }

  /** `filteredStaff`: the records passing all three tests, in table order. */
  function FilteredStaff(data: seq<Staff>, c: Criteria): (r: seq<Staff>)
    ensures IsSubsequence(r, data)
    ensures |r| <= |data|
    ensures forall s :: s in r <==> s in data && Matches(s, c)
    ensures forall s :: multiset(r)[s] == if Matches(s, c) then multiset(data)[s] else 0
  {
    var keep := (s: Staff) => Matches(s, c);
    FilterIsSubsequence(data, keep);
    FilterExact(data, keep);
    FilterMultisetExact(data, keep);
    Filter(data, keep)
  }

  /** Every record kept by the search has the folded term inside its folded name or its folded role. */
  lemma KeptRecordsMatchSearch(data: seq<Staff>, c: Criteria, s: Staff)
    requires s in FilteredStaff(data, c)
    ensures (exists i :: OccursAt(ToLower(s.name), ToLower(c.searchTerm), i)) ||
            (exists i :: OccursAt(ToLower(s.role), ToLower(c.searchTerm), i))
  {
    IncludesIgnoringCaseMeaning(s.name, c.searchTerm);
    IncludesIgnoringCaseMeaning(s.role, c.searchTerm);
  }

  /** With the initial criteria every record is shown, in table order. */
  lemma InitialCriteriaKeepsAll(data: seq<Staff>)
    ensures FilteredStaff(data, InitialCriteria) == data
  {
    forall i | 0 <= i < |data| ensures Matches(data[i], InitialCriteria) {
      EmptyNeedleAlwaysIncluded(data[i].name);
    }
    FilterKeepsAll(data, (s: Staff) => Matches(s, InitialCriteria));
  }

  /** A department selector other than "all" keeps exactly the records of that department. */
  lemma DepartmentFilterExact(data: seq<Staff>, department: string)
    requires department != "all"
    ensures FilteredStaff(data, Criteria("", department, "all")) == Filter(data, InDepartment(department))
  {
    var c := Criteria("", department, "all");
    forall i | 0 <= i < |data| ensures Matches(data[i], c) == (data[i].department == department) {
      EmptyNeedleAlwaysIncluded(data[i].name);
    }
    FilterExtensional(data, (s: Staff) => Matches(s, c), InDepartment(department));
  }

  /** A status selector other than "all" keeps exactly the records with that status. */
  lemma StatusFilterExact(data: seq<Staff>, status: string)
    requires status != "all"
    ensures FilteredStaff(data, Criteria("", "all", status)) == Filter(data, (s: Staff) => s.status == status)
  {
    var c := Criteria("", "all", status);
    forall i | 0 <= i < |data| ensures Matches(data[i], c) == (data[i].status == status) {
      EmptyNeedleAlwaysIncluded(data[i].name);
    }
    FilterExtensional(data, (s: Staff) => Matches(s, c), (s: Staff) => s.status == status);
  }

  /** The single filter equals the three tests applied one after another: search, department, status. */
  lemma FilterStagesSearchFirst(data: seq<Staff>, c: Criteria)
    ensures FilteredStaff(data, c) ==
      Filter(Filter(Filter(data, (s: Staff) => MatchesSearch(s, c.searchTerm)),
                    (s: Staff) => MatchesDepartment(s, c.departmentFilter)),
             (s: Staff) => MatchesStatus(s, c.statusFilter))
  {
    FilterFuse3(data, (s: Staff) => MatchesSearch(s, c.searchTerm),
                (s: Staff) => MatchesDepartment(s, c.departmentFilter),
                (s: Staff) => MatchesStatus(s, c.statusFilter),
                (s: Staff) => Matches(s, c));
  }

  /** ... and equally in the reverse order: status, department, search. */
  lemma FilterStagesStatusFirst(data: seq<Staff>, c: Criteria)
    ensures FilteredStaff(data, c) ==
      Filter(Filter(Filter(data, (s: Staff) => MatchesStatus(s, c.statusFilter)),
                    (s: Staff) => MatchesDepartment(s, c.departmentFilter)),
             (s: Staff) => MatchesSearch(s, c.searchTerm))
  {
    FilterFuse3(data, (s: Staff) => MatchesStatus(s, c.statusFilter),
                (s: Staff) => MatchesDepartment(s, c.departmentFilter),
                (s: Staff) => MatchesSearch(s, c.searchTerm),
                (s: Staff) => Matches(s, c));
  }

  /** A department selector that no record carries empties the table. */
  lemma UnmatchedDepartmentEmpty(data: seq<Staff>, c: Criteria)
    requires c.departmentFilter != "all"
    requires forall i :: 0 <= i < |data| ==> data[i].department != c.departmentFilter
    ensures FilteredStaff(data, c) == []
  {
    FilterKeepsNone(data, (s: Staff) => Matches(s, c));
  }

  /** `staffData.filter(s => s.status === status).length`. */
  function CountWithStatus(data: seq<Staff>, status: string): (n: nat)
    ensures n <= |data|
    ensures n == 0 <==> forall i :: 0 <= i < |data| ==> data[i].status != status
  {
    Count(data, (s: Staff) => s.status == status)
  }

  /** The test `s => s.department === department`. */
  function InDepartment(department: string): Staff -> bool {
    (s: Staff) => s.department == department
  }

  /** `staffData.filter(s => s.department === department).length`. */
  function CountInDepartment(data: seq<Staff>, department: string): (n: nat)
    ensures n <= |data|
    ensures n == 0 <==> forall i :: 0 <= i < |data| ==> data[i].department != department
    ensures department != "all" ==> n == |FilteredStaff(data, Criteria("", department, "all"))|
  {
    var n := Count(data, InDepartment(department));
    // For a real department, the department-only filter lists exactly the counted records.
    if department == "all" then n
    else (DepartmentFilterExact(data, department); n)
  }

  /** A status card shows as many records as selecting that status in the filter would list. */
  lemma StatusCardMatchesFilter(data: seq<Staff>, status: string)
    requires status != "all"
    ensures CountWithStatus(data, status) == |FilteredStaff(data, Criteria("", "all", status))|
  {
    StatusFilterExact(data, status);
  }

  /** When every status is one of the three the badge knows, the three status counts add up to the total. */
  lemma StatusCountsSumToTotal(data: seq<Staff>)
    requires forall i :: 0 <= i < |data| ==> data[i].status in StatusConfig
    ensures CountWithStatus(data, "active") + CountWithStatus(data, "on-leave") + CountWithStatus(data, "inactive") == |data|
  {
    CountThreeWay(data, (s: Staff) => s.status == "active", (s: Staff) => s.status == "on-leave",
                  (s: Staff) => s.status == "inactive");
  }

  lemma SeedStatusesKnown()
    ensures forall i :: 0 <= i < |StaffData| ==> StaffData[i].status in StatusConfig
  {
  }

  /** The summary cards: 7 in total, 5 active, 1 on leave, 4 in the agro team. */
  lemma SeedSummaryCounts()
    ensures |StaffData| == 7
    ensures CountWithStatus(StaffData, "active") == 5
    ensures CountWithStatus(StaffData, "on-leave") == 1
    ensures CountInDepartment(StaffData, "Agro Activities") == 4
  {
    SeedActiveCount();
    SeedOnLeaveCount();
    SeedAgroCount();
  }

  lemma SeedOnLeaveCount()
    ensures CountWithStatus(StaffData, "on-leave") == 1
  {
  }

  lemma SeedActiveCount()
    ensures CountWithStatus(StaffData, "active") == 5
  {
  }

  lemma SeedAgroCount()
    ensures CountInDepartment(StaffData, "Agro Activities") == 4
  {
    var k := InDepartment("Agro Activities");
    assert Filter(StaffData[6..], k) == [];
    assert Filter(StaffData[5..], k) == [StaffData[5]];
    assert Filter(StaffData[4..], k) == [StaffData[5]];
    assert Filter(StaffData[3..], k) == [StaffData[3], StaffData[5]];
    assert Filter(StaffData[2..], k) == [StaffData[3], StaffData[5]];
    assert Filter(StaffData[1..], k) == [StaffData[1], StaffData[3], StaffData[5]];
    assert StaffData[0..] == StaffData;
    assert Filter(StaffData, k) == [StaffData[0], StaffData[1], StaffData[3], StaffData[5]];
  }

  datatype Badge = Badge(caption: string, className: string)

  /** The `statusConfig` table of `getStatusBadge`. */
  const StatusConfig: map<string, Badge> := map[
    "active" := Badge("Active", "bg-green-100 text-green-800 hover:bg-green-100"),
    "on-leave" := Badge("On Leave", "bg-yellow-100 text-yellow-800 hover:bg-yellow-100"),
    "inactive" := Badge("Inactive", "bg-red-100 text-red-800 hover:bg-red-100")
  ]

  /** `getStatusBadge`: defined only for the three configured statuses (any other would read a field of `undefined`). */
  function StatusBadge(status: string): (b: Badge)
    requires status in StatusConfig
    ensures b in StatusConfig.Values
    ensures forall other :: other in StatusConfig && StatusConfig[other] == b ==> other == status
  {
    StatusConfig[status]
  }

  /** Every row the table can show, whatever the criteria, has a configured status. */
  lemma ShownRowsHaveBadges(c: Criteria)
    ensures forall s :: s in FilteredStaff(StaffData, c) ==> s.status in StatusConfig
  {
    SeedStatusesKnown();
  }

  /** The `colors` table of `getDepartmentColor`. */
  const DepartmentColors: map<string, string> := map[
    "Agro Activities" := "text-agro-green",
    "Water Rides" := "text-water-blue",
    "Maintenance" := "text-orange-600",
    "Administration" := "text-purple-600"
  ]

  const FallbackDepartmentColor := "text-muted-foreground"

  /** `getDepartmentColor`: the mapped class for a listed department, the fallback for any other string. */
  function DepartmentColor(department: string): (cls: string)
    ensures department in DepartmentColors ==> cls == DepartmentColors[department]
    ensures cls == FallbackDepartmentColor <==> department !in DepartmentColors
  {
    if department in DepartmentColors then DepartmentColors[department] else FallbackDepartmentColor
  }

  /** The four listed departments are told apart by their colours. */
  lemma DepartmentColorsDistinct(d: string, e: string)
    requires d in DepartmentColors && e in DepartmentColors
    ensures DepartmentColor(d) == DepartmentColor(e) <==> d == e
  {
  }
}
