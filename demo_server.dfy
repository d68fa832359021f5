/** The demonstration server: the same listing, search, lookup and locations
    endpoints as the database server, answered from fixed in-memory records.
    Every handler is a chain of `filter`, `find` and `new Set` over the records;
    nothing is updated. */
module DemoServer {
  import opened Wrappers
  import opened Js
  import opened Strings
  import opened Collections
  import EventServer

  /** A charity category: the search turns a category id into its name. */
  datatype Category = Category(id: int, name: string)

  /** A mock event, with the fields the handlers read. */
  datatype MockEvent = MockEvent(id: int, name: string, eventDate: string, location: string,
                                 status: string, categoryName: string)

  /** The in-memory data the server answers from. */
  datatype Store = Store(categories: seq<Category>, events: seq<MockEvent>)

  /** A JSON reply: the HTTP status, `success`, an optional message, the data and,
      for lists, `total`. */
  datatype Reply<T> = Reply(status: int, success: bool, message: Option<string>, data: Option<T>, total: Option<int>)

  const MockCategories: seq<Category> := [
    Category(1, "慈善晚宴"), Category(2, "趣味跑"), Category(3, "无声拍卖"), Category(4, "音乐会"),
    Category(5, "义卖活动"), Category(6, "公益讲座"), Category(7, "志愿服务"), Category(8, "户外徒步")
  ]

  const MockEvents: seq<MockEvent> := [
    MockEvent(1, "爱心慈善晚宴2024", "2024-12-15T18:30:00.000Z", "北京国际会议中心", "upcoming", "慈善晚宴"),
    MockEvent(2, "绿色城市公益跑", "2024-11-20T07:00:00.000Z", "上海世纪公园", "upcoming", "趣味跑"),
    MockEvent(3, "关爱老人音乐会", "2024-11-30T14:30:00.000Z", "广州大剧院", "upcoming", "音乐会"),
    MockEvent(4, "希望之光医疗援助拍卖", "2024-12-05T19:00:00.000Z", "深圳会展中心", "upcoming", "无声拍卖"),
    MockEvent(5, "爱心义卖嘉年华", "2024-11-25T10:00:00.000Z", "北京朝阳公园", "upcoming", "义卖活动")
  ]

  const Mock: Store := Store(MockCategories, MockEvents)

  // ---------------------------------------------------------------------------
  // GET /api/events

  /** The events the home page shows: those upcoming or under way. */
  predicate Listed(e: MockEvent)
  {
    e.status == "upcoming" || e.status == "ongoing"
  }

  /** `mockEvents.filter(...)`: every listed event, each as often as it is stored. */
  function Listing(events: seq<MockEvent>): (r: seq<MockEvent>)
    ensures forall e | e in r :: e in events && Listed(e)
    ensures forall e | e in events :: multiset(r)[e] == if Listed(e) then multiset(events)[e] else 0
  {
    FilterMultiplicity(events, Listed);
    Filter(events, Listed)
  }

  /** The listing holds exactly the upcoming and ongoing events, in their stored
      order and with their stored multiplicity. */
  lemma ListingExact(events: seq<MockEvent>)
    ensures IsSubsequence(Listing(events), events)
    ensures forall e | e in Listing(events) :: e in events && Listed(e)
    ensures forall e | e in events && Listed(e) :: e in Listing(events)
    ensures forall e | e in events :: multiset(Listing(events))[e] == if Listed(e) then multiset(events)[e] else 0
  {
    FilterSubsequence(events, Listed);
    var r := Listing(events);
    forall e | e in r
      ensures e in events && Listed(e)
    {
      var i :| 0 <= i < |r| && r[i] == e;
    }
    forall e | e in events && Listed(e)
      ensures e in r
    {
      var i :| 0 <= i < |events| && events[i] == e;
    }
  }

  /** Every shipped mock event is upcoming, so the home page lists them all. */
  lemma MockListingIsAll()
    ensures Listing(MockEvents) == MockEvents
  {
    FilterAll(MockEvents, Listed);
  }

  function GetEvents(store: Store): (r: Reply<seq<MockEvent>>)
    ensures r.status == 200 && r.success
    ensures r.data == Some(Listing(store.events)) && r.total == Some(|Listing(store.events)|)
  {
    var events := Listing(store.events);
    Reply(200, true, None, Some(events), Some(|events|))
  }

  // ---------------------------------------------------------------------------
  // GET /api/events/search

  /** The calendar day of an event: its date parsed and written back in ISO
      form, cut at the `T`. `iso` stands for that parse-and-print, which the
      model takes as given. */
  function Day(e: MockEvent, iso: string -> string): string
  {
    FieldBefore(iso(e.eventDate), 'T')
  }

  /** `c.id == category`: loose equality turns the query text into a number. */
  function CategoryName(categories: seq<Category>, category: string): (r: Option<string>)
    ensures r.Some? <==> exists c | c in categories :: ToNumber(category) == Int(c.id)
    ensures r.Some? ==> exists c | c in categories :: ToNumber(category) == Int(c.id) && c.name == r.value
  {
    NamedBy(categories, ToNumber(category))
  }

  /** The name of the first category whose id equals n. */
  function NamedBy(categories: seq<Category>, n: Num): (r: Option<string>)
    ensures r.Some? <==> exists c | c in categories :: n == Int(c.id)
    ensures r.Some? ==> exists c | c in categories :: n == Int(c.id) && c.name == r.value
    ensures r.Some? ==>
      exists i | 0 <= i < |categories| ::
        && n == Int(categories[i].id) && categories[i].name == r.value
        && forall j | 0 <= j < i :: n != Int(categories[j].id)
  {
    var found := Find(categories, (c: Category) => n == Int(c.id));
    if found.Some? then Some(found.value.name) else None
  }

  /** The category name to filter on, if any: no filter for a missing or `all`
      category, nor for an id no category has. */
  function CategoryFilter(categories: seq<Category>, category: string): (r: Option<string>)
    ensures category == "" || category == "all" ==> r.None?
    ensures r.Some? ==> r.value != "" && exists c | c in categories :: ToNumber(category) == Int(c.id) && c.name == r.value
    ensures category != "" && category != "all" ==>
      (r.Some? <==> CategoryName(categories, category).Some? && CategoryName(categories, category).value != "")
    ensures r.Some? ==> r == CategoryName(categories, category)
  {
    if category == "" || category == "all" then None
    else
      var name := CategoryName(categories, category);
      if name.Some? && name.value != "" then name else None
  }

  predicate StatusGiven(status: string)
  {
    status != "" && status != "all"
  }

  function ByDate(s: seq<MockEvent>, date: string, iso: string -> string): seq<MockEvent>
  {
    Narrow(s, date != "", (e: MockEvent) => Day(e, iso) == date)
  }

  function ByLocation(s: seq<MockEvent>, location: string): seq<MockEvent>
  {
    Narrow(s, Trim(location) != "", (e: MockEvent) => Contains(e.location, Trim(location)))
  }

  function ByCategory(s: seq<MockEvent>, categories: seq<Category>, category: string): seq<MockEvent>
  {
    var wanted := CategoryFilter(categories, category);
    Narrow(s, wanted.Some?, (e: MockEvent) => wanted.Some? && e.categoryName == wanted.value)
  }

  function ByStatus(s: seq<MockEvent>, status: string): seq<MockEvent>
  {
    Narrow(s, StatusGiven(status), (e: MockEvent) => e.status == status)
  }

  /** The search: the listing, narrowed by each filter in turn. Each filter only
      removes events, so the result keeps the listing's order. */
  function Search(store: Store, q: EventServer.SearchQuery, iso: string -> string): (r: seq<MockEvent>)
    ensures IsSubsequence(r, Listing(store.events))
  {
    var listed := Listing(store.events);
    var byDate := ByDate(listed, q.date, iso);
    var byLocation := ByLocation(byDate, q.location);
    var byCategory := ByCategory(byLocation, store.categories, q.category);
    var r := ByStatus(byCategory, q.status);
    SubsequenceTrans(byLocation, byDate, listed);
    SubsequenceTrans(byCategory, byLocation, listed);
    SubsequenceTrans(r, byCategory, listed);
    r
  }

  function SearchEvents(store: Store, q: EventServer.SearchQuery, iso: string -> string): (r: Reply<seq<MockEvent>>)
    ensures r.status == 200 && r.success
    ensures r.data == Some(Search(store, q, iso)) && r.total == Some(|Search(store, q, iso)|)
  {
    var events := Search(store, q, iso);
    Reply(200, true, None, Some(events), Some(|events|))
  }

  /** What the search asks of one event. The location test is a case-sensitive
      substring test on the trimmed text. */
  predicate Matches(e: MockEvent, store: Store, q: EventServer.SearchQuery, iso: string -> string)
  {
    var wanted := CategoryFilter(store.categories, q.category);
    && (q.date != "" ==> Day(e, iso) == q.date)
    && (Trim(q.location) != "" ==> Contains(e.location, Trim(q.location)))
    && (wanted.Some? ==> e.categoryName == wanted.value)
    && (StatusGiven(q.status) ==> e.status == q.status)
  }

  /** The search returns exactly the listed events that pass every given filter. */
  lemma SearchExact(store: Store, q: EventServer.SearchQuery, iso: string -> string, e: MockEvent)
    ensures e in Search(store, q, iso) <==> e in Listing(store.events) && Matches(e, store, q, iso)
  {
    var wanted := CategoryFilter(store.categories, q.category);
    var byDate := ByDate(Listing(store.events), q.date, iso);
    var byLocation := ByLocation(byDate, q.location);
    var byCategory := ByCategory(byLocation, store.categories, q.category);
    NarrowMembers(Listing(store.events), q.date != "", (e: MockEvent) => Day(e, iso) == q.date, e);
    NarrowMembers(byDate, Trim(q.location) != "", (e: MockEvent) => Contains(e.location, Trim(q.location)), e);
    NarrowMembers(byLocation, wanted.Some?, (e: MockEvent) => wanted.Some? && e.categoryName == wanted.value, e);
    NarrowMembers(byCategory, StatusGiven(q.status), (e: MockEvent) => e.status == q.status, e);
  }

  /** A category id that names no category filters nothing: the search is the
      one for `all`, not an empty result. */
  lemma UnknownCategoryIgnored(store: Store, q: EventServer.SearchQuery, iso: string -> string)
    requires CategoryName(store.categories, q.category).None?
    ensures Search(store, q, iso) == Search(store, q.(category := "all"), iso)
  {
    var byLocation := ByLocation(ByDate(Listing(store.events), q.date, iso), q.location);
    NoCategoryNoFilter(byLocation, store.categories, q.category);
    NoCategoryNoFilter(byLocation, store.categories, "all");
    assert Search(store, q, iso) == ByStatus(byLocation, q.status);
    assert Search(store, q.(category := "all"), iso) == ByStatus(byLocation, q.status);
  }

  lemma NoCategoryNoFilter(s: seq<MockEvent>, categories: seq<Category>, category: string)
    requires category == "all" || CategoryName(categories, category).None?
    ensures ByCategory(s, categories, category) == s
  {
    assert CategoryFilter(categories, category).None?;
  }

  /** A location made only of white space, such as the ideographic space U+3000,
      trims to nothing and filters nothing. */
  lemma BlankLocationIgnored(store: Store, q: EventServer.SearchQuery, iso: string -> string)
    requires forall i | 0 <= i < |q.location| :: IsSpace(q.location[i])
    ensures Search(store, q, iso) == Search(store, q.(location := ""), iso)
  {
    TrimEmptyIffBlank(q.location);
    var byDate := ByDate(Listing(store.events), q.date, iso);
    assert ByLocation(byDate, q.location) == byDate;
    assert ByLocation(byDate, "") == byDate;
  }

  /** A status of `all` is the same as no status. */
  lemma StatusAllIgnored(store: Store, q: EventServer.SearchQuery, iso: string -> string)
    ensures Search(store, q.(status := "all"), iso) == Search(store, q.(status := ""), iso)
  {
  }

  /** A category id written as its decimal text selects the category with
      that id. */
  lemma CategoryByDecimalId(categories: seq<Category>, n: int)
    ensures CategoryName(categories, IntToString(n)) == NamedBy(categories, Int(n))
  {
    ToNumberRendered(n);
  }

  /** Among the shipped categories, id 3 is the silent auction and id 9 is
      unknown, so a search for 9 is a search for `all`. */
  lemma MockCategoryIds()
    ensures NamedBy(MockCategories, Int(3)) == Some("无声拍卖")
    ensures NamedBy(MockCategories, Int(9)).None?
  {
    assert MockCategories[2].id == 3;
    assert forall c | c in MockCategories :: c.id != 9;
  }

  // ---------------------------------------------------------------------------
  // GET /api/events/:id

  /** The first event with the given id, if any. */
  function WithId(events: seq<MockEvent>, id: int): (r: Option<MockEvent>)
    ensures r.None? <==> forall e | e in events :: e.id != id
    ensures r.Some? ==> r.value in events && r.value.id == id
  {
    Find(events, (e: MockEvent) => e.id == id)
  }

  /** `parseInt(req.params.id)`: NaN is refused with 400, an unknown id is a 404,
      and a known id returns its event. */
  function EventById(store: Store, idText: string): (r: Reply<MockEvent>)
    ensures r.status == 400 <==> ParseIntAuto(idText).NaN?
    ensures r.status == 404 <==> ParseIntAuto(idText).Int? && forall e | e in store.events :: e.id != ParseIntAuto(idText).value
    ensures r.status != 200 <==> !r.success && r.data.None?
    ensures r.status == 200 ==> r.data.Some? && r.data.value in store.events && Int(r.data.value.id) == ParseIntAuto(idText)
    ensures r.status in {200, 400, 404}
  {
    var n := ParseIntAuto(idText);
    if n.NaN? then Reply(400, false, Some("无效的活动ID"), None, None)
    else
      var found := WithId(store.events, n.value);
      if found.None? then Reply(404, false, Some("活动不存在"), None, None)
      else Reply(200, true, None, found, None)
  }

  /** Of several events with one id, the lookup returns the first. */
  lemma ByIdFirst(store: Store, idText: string, i: int)
    requires 0 <= i < |store.events| && Int(store.events[i].id) == ParseIntAuto(idText)
    requires forall j | 0 <= j < i :: store.events[j].id != store.events[i].id
    ensures EventById(store, idText).data == Some(store.events[i])
  {
    var found := WithId(store.events, store.events[i].id);
    var k :| 0 <= k < |store.events| && store.events[k] == found.value && store.events[k].id == store.events[i].id
      && forall j | 0 <= j < k :: store.events[j].id != store.events[i].id;
    assert k == i;
  }

  /** An event's id, written in decimal, finds that event unless an earlier
      event shares the id. */
  lemma ByIdRendered(store: Store, i: int)
    requires 0 <= i < |store.events|
    requires forall j | 0 <= j < i :: store.events[j].id != store.events[i].id
    ensures EventById(store, IntToString(store.events[i].id)).data == Some(store.events[i])
  {
    ParseIntAutoRendered(store.events[i].id);
    ByIdFirst(store, IntToString(store.events[i].id), i);
  }

  // ---------------------------------------------------------------------------
  // GET /api/locations

  function LocationsOf(events: seq<MockEvent>): (r: seq<string>)
    ensures |r| == |events|
    ensures forall i | 0 <= i < |events| :: r[i] == events[i].location
  {
    seq(|events|, i requires 0 <= i < |events| => events[i].location)
  }

  /** `[...new Set(mockEvents.map(e => e.location))]`, over every stored event,
      listed or not. */
  function GetLocations(store: Store): (r: Reply<seq<string>>)
    ensures r.status == 200 && r.success && r.data.Some?
    ensures NoDuplicates(r.data.value)
    ensures forall e | e in store.events :: e.location in r.data.value
    ensures forall l | l in r.data.value :: exists e | e in store.events :: e.location == l
  {
    var names := LocationsOf(store.events);
    var locations := Dedupe(names);
    assert forall e | e in store.events :: e.location in names;
    assert forall l | l in locations :: exists i | 0 <= i < |store.events| :: store.events[i].location == l;
    Reply(200, true, None, Some(locations), None)
  }

  /** Each location is listed where it first occurs. */
  lemma LocationsInOrder(store: Store)
    ensures var names, r := LocationsOf(store.events), GetLocations(store).data.value;
      && IsSubsequence(r, names)
      && InFirstOrder(r, names)
  {
    var names := LocationsOf(store.events);
    assert GetLocations(store).data.value == Dedupe(names);
    DedupeSubsequence(names);
    DedupeFirstOrder(names);
  }
}
