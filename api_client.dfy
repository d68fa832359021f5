/** The browser's service layer: how an activity record from the Node backend
    becomes a display event, the small display tables, the expiration display,
    the registration gate, and the filtering behind event search, the location
    list and the lookups by id. */
module ApiClient {
  import opened Wrappers
  import opened Js
  import opened Strings
  import opened Collections
  import DbConfig

  /** What the browser reads from its clock and its date parser. `parse` is
      `new Date(text).getTime()` (NaN when the text is not a date), `nowIso` is
      `new Date().toISOString()` and `isoOfSeconds(n)` is
      `new Date(n * 1000).toISOString()` cut to `YYYY-MM-DD HH:MM:SS`. */
  datatype Clock = Clock(
    nowMs: int, nowIso: string, zone: int,
    parse: string -> Num, isoOfSeconds: int -> string)

  /** The expiration field of a backend record: absent, Unix seconds, or text. */
  datatype Expiration = Missing | Seconds(n: int) | Stamp(text: string)

  /** One activity as the backend lists it, with the reward columns joined.
      Optional text fields that are only read through `||` hold "" when absent;
      optional numbers are `Option`s, so `!= null` and `||` can be told apart. */
  datatype Activity = Activity(
    id: int, title: string, subtitle: string, backgroundImage: string,
    status: string, name: string, description: string,
    fullDescription: Option<string>, eventDate: string, location: string,
    targetAmount: Option<int>, currentAmount: Option<int>, currencyType: string,
    ticketPrice: Option<int>, isFree: Option<int>, maxParticipants: Option<int>,
    currentParticipants: Option<int>, imageUrl: string, categoryName: string,
    organizationName: string, registrationDeadline: Option<string>,
    registrationFee: Option<int>, participantCount: Option<int>,
    rewardHavemoney: Option<int>, expirationtime: Expiration)

  /** The display status the client derives; the backend only knows
      `normal` and `hidden`. */
  datatype Status = Upcoming | Ongoing | Ended | Suspended

  function StatusName(s: Status): string
  {
    match s
    case Upcoming => "upcoming"
    case Ongoing => "ongoing"
    case Ended => "ended"
    case Suspended => "suspended"
  }

  /** An event in the shape the pages render. */
  datatype CharityEvent = CharityEvent(
    id: int, name: string, description: string,
    fullDescription: Option<string>, eventDate: string, location: string,
    targetAmount: int, currentAmount: int, currencyType: string,
    ticketPrice: int, isFree: bool, maxParticipants: Option<int>,
    currentParticipants: int, status: Status, imageUrl: string,
    categoryName: string, organizationName: string,
    registrationDeadline: Option<string>, expirationtime: Option<string>)

  /** `a || b` on text: the empty string is falsy. */
  function Or(a: string, b: string): string
  {
    if a != "" then a else b
  }

  /** `x || d` on an optional number: absent and 0 are falsy. */
  function OrNumber(x: Option<int>, d: int): int
  {
    if x.Some? && x.value != 0 then x.value else d
  }

  /** `date > now` and `date < now`: an invalid date compares false both ways. */
  predicate Later(t: Num, now: int)
  {
    t.Int? && t.value > now
  }

  predicate Earlier(t: Num, now: int)
  {
    t.Int? && t.value < now
  }

  // ---------------------------------------------------------------------------
  // convertActivityToCharityEvent

  /** The display status: with an event date, a `normal` activity is upcoming,
      ended or (when the date is neither later nor earlier, which includes a
      date that does not parse) ongoing; without one it is upcoming; any other
      backend status is suspended. */
  function DeriveStatus(status: string, eventDate: string, clock: Clock): (r: Status)
    ensures r == Suspended <==> status != "normal"
    ensures r == Upcoming <==> status == "normal" && (eventDate == "" || Later(clock.parse(eventDate), clock.nowMs))
    ensures r == Ended <==> status == "normal" && eventDate != "" && Earlier(clock.parse(eventDate), clock.nowMs)
  {
    if eventDate != "" then
      var date := clock.parse(eventDate);
      if status == "normal" then
        if Later(date, clock.nowMs) then Upcoming
        else if Earlier(date, clock.nowMs) then Ended
        else Ongoing
      else Suspended
    else if status == "normal" then Upcoming
    else Suspended
  }

  /** The expiration as display text: numeric seconds go through the ISO
      rendering, text is kept, and a falsy value (0 or "") is left undefined. */
  function ExpirationText(x: Expiration, clock: Clock): (r: Option<string>)
    ensures x.Stamp? && r.Some? ==> r.value == x.text
    ensures r.None? <==> x.Missing? || x == Seconds(0) || x == Stamp("")
  {
    match x
    case Missing => None
    case Seconds(n) => if n != 0 then Some(clock.isoOfSeconds(n)) else None
    case Stamp(s) => if s != "" then Some(s) else None
  }

  /** Every display text the pages print next to a label has a fallback, so it
      is never empty; the free flag agrees with the price. */
  function Convert(a: Activity, clock: Clock): (e: CharityEvent)
    ensures e.id == a.id
    ensures e.name != "" && e.description != "" && e.location != ""
    ensures e.currencyType != "" && e.categoryName != "" && e.organizationName != ""
    ensures e.ticketPrice == 0 ==> e.isFree
    ensures a.registrationFee.Some? ==> (e.isFree <==> e.ticketPrice == 0)
    ensures a.registrationFee.None? ==> (e.isFree <==> a.isFree == Some(1) || e.ticketPrice == 0)
  {
    CharityEvent(
      id := a.id,
      name := Or(Or(a.name, a.title), "Untitled Event"),
      description := Or(Or(a.description, a.subtitle), "No description"),
      fullDescription := a.fullDescription,
      eventDate := Or(a.eventDate, clock.nowIso),
      location := Or(a.location, "undetermined"),
      targetAmount := OrNumber(a.targetAmount, 0),
      currentAmount :=
        if a.rewardHavemoney.Some? then a.rewardHavemoney.value else OrNumber(a.currentAmount, 0),
      currencyType := Or(a.currencyType, "USD"),
      ticketPrice :=
        if a.registrationFee.Some? then a.registrationFee.value else OrNumber(a.ticketPrice, 0),
      isFree :=
        if a.registrationFee.Some? then a.registrationFee.value == 0
        else a.isFree == Some(1) || OrNumber(a.ticketPrice, 0) == 0,
      maxParticipants := a.maxParticipants,
      currentParticipants :=
        if a.participantCount.Some? then a.participantCount.value else OrNumber(a.currentParticipants, 0),
      status := DeriveStatus(a.status, a.eventDate, clock),
      imageUrl := Or(Or(a.imageUrl, a.backgroundImage), ""),
      categoryName := Or(a.categoryName, "Other"),
      organizationName := Or(a.organizationName, "Charity Platform"),
      registrationDeadline := a.registrationDeadline,
      expirationtime := ExpirationText(a.expirationtime, clock))
  }

  /** The first non-empty text of a `||` chain, or "" when every one is empty. */
  function FirstText(chain: seq<string>): (r: string)
    ensures r == "" <==> forall i | 0 <= i < |chain| :: chain[i] == ""
    ensures r != "" ==> exists i | 0 <= i < |chain| :: chain[i] == r && forall j | 0 <= j < i :: chain[j] == ""
  {
    if chain == [] then ""
    else if chain[0] != "" then chain[0]
    else
      var r := FirstText(chain[1..]);
      assert forall i | 1 <= i < |chain| :: chain[i] == chain[1..][i - 1];
      r
  }

  /** Each display text is the first non-empty one along its chain of
      candidates, ending in the fixed placeholder. */
  lemma DisplayFallbacks(a: Activity, clock: Clock)
    ensures Convert(a, clock).name == FirstText([a.name, a.title, "Untitled Event"])
    ensures Convert(a, clock).description == FirstText([a.description, a.subtitle, "No description"])
    ensures Convert(a, clock).location == FirstText([a.location, "undetermined"])
    ensures Convert(a, clock).currencyType == FirstText([a.currencyType, "USD"])
    ensures Convert(a, clock).categoryName == FirstText([a.categoryName, "Other"])
    ensures Convert(a, clock).organizationName == FirstText([a.organizationName, "Charity Platform"])
    ensures Convert(a, clock).imageUrl == FirstText([a.imageUrl, a.backgroundImage])
  {
    ChainOfThree(a.name, a.title, "Untitled Event");
    ChainOfThree(a.description, a.subtitle, "No description");
    ChainOfTwo(a.location, "undetermined");
    ChainOfTwo(a.currencyType, "USD");
    ChainOfTwo(a.categoryName, "Other");
    ChainOfTwo(a.organizationName, "Charity Platform");
    ChainOfTwo(a.imageUrl, a.backgroundImage);
  }

  lemma ChainOfTwo(x: string, y: string)
    ensures FirstText([x, y]) == Or(x, y)
  {
    assert [x, y][1..] == [y];
    assert [y][1..] == [];
  }

  lemma ChainOfThree(x: string, y: string, z: string)
    ensures FirstText([x, y, z]) == Or(Or(x, y), z)
  {
    assert [x, y, z][1..] == [y, z];
    ChainOfTwo(y, z);
  }

  /** Amount, price and participants: the reward column when it is present
      (even when it is 0), otherwise the activity's own field, otherwise 0. */
  lemma RewardPrecedence(a: Activity, clock: Clock)
    ensures Convert(a, clock).currentAmount ==
      match (a.rewardHavemoney, a.currentAmount)
      case (Some(m), _) => m
      case (None, Some(c)) => c
      case (None, None) => 0
    ensures Convert(a, clock).ticketPrice ==
      match (a.registrationFee, a.ticketPrice)
      case (Some(f), _) => f
      case (None, Some(t)) => t
      case (None, None) => 0
    ensures Convert(a, clock).currentParticipants ==
      match (a.participantCount, a.currentParticipants)
      case (Some(n), _) => n
      case (None, Some(c)) => c
      case (None, None) => 0
  {
  }


  /** A `normal` activity whose event date does not parse is neither later nor
      earlier than now, so it shows as ongoing. */
  lemma UnparsableDateOngoing(a: Activity, clock: Clock)
    requires a.status == "normal" && a.eventDate != "" && clock.parse(a.eventDate) == NaN
    ensures Convert(a, clock).status == Ongoing
  {
  }

  // ---------------------------------------------------------------------------
  // Display tables

  /** The currency symbol: the four known codes have their own, any other code
      shows the yuan sign. */
  function CurrencySymbol(code: string): (r: string)
    ensures code == "CNY" ==> r == "¥"
    ensures code == "USD" ==> r == "$"
    ensures code == "EUR" ==> r == "€"
    ensures code == "GBP" ==> r == "£"
    ensures r == "¥" <==> code !in {"USD", "EUR", "GBP"}
  {
    match code
    case "CNY" => "¥"
    case "USD" => "$"
    case "EUR" => "€"
    case "GBP" => "£"
    case _ => "¥"
  }

  /** The four display statuses by name. */
  predicate IsStatusName(s: string)
  {
    s in {"upcoming", "ongoing", "ended", "suspended"}
  }

  /** The status label: the known statuses capitalised, anything else as given. */
  function StatusText(status: string): (r: string)
    ensures !IsStatusName(status) ==> r == status
    ensures IsStatusName(status) ==> r == [UpperChar(status[0])] + status[1..] && r != status
  {
    match status
    case "upcoming" => "Upcoming"
    case "ongoing" => "Ongoing"
    case "ended" => "Ended"
    case "suspended" => "Suspended"
    case _ => status
  }

  /** The status style class: `status-` and the name for the known statuses,
      nothing for anything else. */
  function StatusClass(status: string): (r: string)
    ensures r != "" <==> IsStatusName(status)
    ensures r != "" ==> r == "status-" + status
  {
    match status
    case "upcoming" => "status-upcoming"
    case "ongoing" => "status-ongoing"
    case "ended" => "status-ended"
    case "suspended" => "status-suspended"
    case _ => ""
  }

  /** Every status a converted event can carry has a label and a class of its
      own, and the labels of two statuses differ. */
  lemma StatusDisplayed(s: Status, t: Status)
    ensures IsStatusName(StatusName(s))
    ensures StatusClass(StatusName(s)) == "status-" + StatusName(s)
    ensures s != t ==> StatusText(StatusName(s)) != StatusText(StatusName(t))
  {
  }

  // ---------------------------------------------------------------------------
  // formatExpirationTime

  /** The expiration as the pages show it: "Not set" for a missing or empty
      value, a `YYYY-MM-DD HH:MM:SS` text as it is, otherwise the parsed date
      rendered in local time with the same template, or the text itself when
      it does not parse. */
  function FormatExpirationTime(t: Option<string>, clock: Clock): (r: string)
    ensures t.None? || t == Some("") ==> r == "Not set"
    ensures t.Some? && DbConfig.IsDateTimeText(t.value) ==> r == t.value
  {
    if t.None? || t.value == "" then "Not set"
    else if DbConfig.IsDateTimeText(t.value) then t.value
    else
      match clock.parse(t.value)
      case Int(ms) => if DbConfig.ValidMs(ms) then DbConfig.FormatDateTime(Int(ms), clock.zone) else t.value
      case NaN => t.value
  }

  /** Showing a canonical text again changes nothing. */
  lemma FormatExpirationIdempotent(s: string, clock: Clock)
    requires DbConfig.IsDateTimeText(s)
    ensures FormatExpirationTime(Some(FormatExpirationTime(Some(s), clock)), clock) == FormatExpirationTime(Some(s), clock)
  {
  }

  /** A text the parser reads as a date with a four-digit local year comes
      out canonical, so showing it twice is showing it once. */
  lemma ReformattedIsCanonical(t: string, clock: Clock)
    requires t != "" && !DbConfig.IsDateTimeText(t)
    requires clock.parse(t).Int? && DbConfig.ValidMs(clock.parse(t).value)
    requires 1000 <= DbConfig.YearAt(clock.parse(t).value / 1000, clock.zone) <= 9999
    ensures DbConfig.IsDateTimeText(FormatExpirationTime(Some(t), clock))
    ensures FormatExpirationTime(Some(FormatExpirationTime(Some(t), clock)), clock) == FormatExpirationTime(Some(t), clock)
  {
    CanonicalInstant(clock.parse(t).value, clock.zone);
  }

  /** A valid instant with a four-digit local year renders canonically. */
  lemma CanonicalInstant(ms: int, zone: int)
    requires DbConfig.ValidMs(ms)
    requires 1000 <= DbConfig.YearAt(ms / 1000, zone) <= 9999
    ensures DbConfig.IsDateTimeText(DbConfig.FormatDateTime(Int(ms), zone))
  {
    var s := ms / 1000;
    SecondsOfValid(ms);
    DbConfig.FormatShape(s, zone);
    DbConfig.MillisecondsDropped(ms, zone);
  }

  /** The whole second of a valid instant is valid. */
  lemma SecondsOfValid(ms: int)
    requires DbConfig.ValidMs(ms)
    ensures DbConfig.ValidSeconds(ms / 1000)
  {
    assert ms - 999 <= ms / 1000 * 1000 <= ms;
  }

  /** The text the Node backend normalises an expiration to (a four-digit
      year) is shown exactly as the backend sent it. */
  lemma BackendStampShown(s: int, clock: Clock)
    requires DbConfig.ValidSeconds(s)
    requires 1000 <= DbConfig.YearAt(s, clock.zone) <= 9999
    ensures FormatExpirationTime(Some(DbConfig.FormatDateTimeFromUnix(Int(s), clock.zone)), clock)
      == DbConfig.FormatDateTimeFromUnix(Int(s), clock.zone)
  {
    DbConfig.FormatShape(s, clock.zone);
  }

  // ---------------------------------------------------------------------------
  // canRegister

  /** The instant registration closes: the deadline when one is set, otherwise
      the event date. */
  function Deadline(e: CharityEvent, clock: Clock): (t: Num)
    ensures e.registrationDeadline.Some? && e.registrationDeadline.value != "" ==> t == clock.parse(e.registrationDeadline.value)
    ensures e.registrationDeadline.None? || e.registrationDeadline.value == "" ==> t == clock.parse(e.eventDate)
  {
    if e.registrationDeadline.Some? && e.registrationDeadline.value != "" then clock.parse(e.registrationDeadline.value)
    else clock.parse(e.eventDate)
  }

  /** `!max_participants`: no cap, or a cap of 0. */
  predicate Uncapped(e: CharityEvent)
  {
    e.maxParticipants.None? || e.maxParticipants.value == 0
  }

  /** Registration is open for an upcoming event before its deadline while
      there is room. */
  predicate CanRegister(e: CharityEvent, clock: Clock): (ok: bool)
    ensures ok ==> e.status == Upcoming
    ensures Deadline(e, clock).NaN? ==> !ok
    ensures ok && !Uncapped(e) ==> e.currentParticipants < e.maxParticipants.value
  {
    && e.status == Upcoming
    && Later(Deadline(e, clock), clock.nowMs)
    && (Uncapped(e) || e.currentParticipants < e.maxParticipants.value)
  }

  /** For a converted activity with an event date and no deadline, registration
      is open exactly when the activity is `normal`, its date is still ahead and
      there is room. */
  lemma RegistrationByDate(a: Activity, clock: Clock)
    requires a.eventDate != "" && (a.registrationDeadline.None? || a.registrationDeadline == Some(""))
    ensures CanRegister(Convert(a, clock), clock) <==>
      && a.status == "normal"
      && Later(clock.parse(a.eventDate), clock.nowMs)
      && (Uncapped(Convert(a, clock)) || Convert(a, clock).currentParticipants < a.maxParticipants.value)
  {
  }

  /** Only a `normal` activity can ever be registered for. */
  lemma RegistrationNeedsNormal(a: Activity, clock: Clock)
    ensures CanRegister(Convert(a, clock), clock) ==> a.status == "normal"
  {
  }

  /** A full event, or one whose deadline has passed or does not parse, is closed. */
  lemma RegistrationClosed(e: CharityEvent, clock: Clock)
    requires (!Uncapped(e) && e.currentParticipants >= e.maxParticipants.value) || !Later(Deadline(e, clock), clock.nowMs)
    ensures !CanRegister(e, clock)
  {
  }

  // ---------------------------------------------------------------------------
  // Replies of the listing endpoint, and what the service makes of them

  /** The backend's envelope around the activity list; `data` is absent when
      the backend sent none. */
  datatype ApiReply = ApiReply(code: int, msg: string, data: Option<seq<Activity>>)

  /** The service's own envelope. */
  datatype ClientReply<T> = ClientReply(
    success: bool, code: int, msg: string, data: Option<T>,
    total: Option<int>, message: Option<string>)

  /** The backend answered with a success code (1 or 200) and a list. */
  predicate Accepted(reply: ApiReply)
  {
    (reply.code == 1 || reply.code == 200) && reply.data.Some?
  }

  function ConvertAll(s: seq<Activity>, clock: Clock): (r: seq<CharityEvent>)
    ensures |r| == |s|
    ensures forall i | 0 <= i < |s| :: r[i] == Convert(s[i], clock)
  {
    seq(|s|, i requires 0 <= i < |s| => Convert(s[i], clock))
  }

  /** `getEvents`: every activity converted, in order, or a failure. */
  function GetEvents(reply: ApiReply, clock: Clock): (r: ClientReply<seq<CharityEvent>>)
    ensures r.success <==> reply.data.Some?
    ensures r.success ==> r.code == 200 && r.data.Some? && r.total == Some(|r.data.value|)
    ensures r.success ==> r.data == Some(ConvertAll(reply.data.value, clock))
    ensures !r.success ==> r.code == 500 && r.data.None?
  {
    match reply.data
    case Some(rows) =>
      var events := ConvertAll(rows, clock);
      ClientReply(true, 200, "success", Some(events), Some(|events|), None)
    case None =>
      ClientReply(false, 500, "Failed to get events data", None, None, Some("Failed to get events data"))
  }

  /** The message of a failed reply: the backend's, or the service's own when
      the backend gave none. */
  function FailureReply<T>(reply: ApiReply, fallback: string): ClientReply<T>
  {
    ClientReply(false, reply.code, reply.msg, None, None, Some(Or(reply.msg, fallback)))
  }

  /** `getEventById`: the first listed activity with the id, converted; an
      accepted list without it throws "Specified event not found". */
  function GetEventById(reply: ApiReply, id: int, clock: Clock): (r: Result<ClientReply<CharityEvent>>)
    ensures r.Err? <==> Accepted(reply) && forall a | a in reply.data.value :: a.id != id
    ensures r.Err? ==> r.message == "Specified event not found"
    ensures r.Ok? && r.value.success ==> Accepted(reply) && r.value.data.Some? && r.value.data.value.id == id
    ensures r.Ok? && r.value.success ==>
      exists i | 0 <= i < |reply.data.value| ::
        && reply.data.value[i].id == id
        && r.value.data.value == Convert(reply.data.value[i], clock)
        && forall j | 0 <= j < i :: reply.data.value[j].id != id
    ensures r.Ok? ==> (r.value.success <==> Accepted(reply))
    ensures r.Ok? && !r.value.success ==> r.value.message == Some(Or(reply.msg, "Failed to get event detail"))
  {
    if Accepted(reply) then
      match Find(reply.data.value, (a: Activity) => a.id == id)
      case Some(a) => Ok(ClientReply(true, reply.code, reply.msg, Some(Convert(a, clock)), None, None))
      case None => Err("Specified event not found")
    else Ok(FailureReply(reply, "Failed to get event detail"))
  }

  // ---------------------------------------------------------------------------
  // searchEvents

  /** What the search form sends; the category may be a name or a number. */
  datatype SearchParams = SearchParams(location: string, category: QueryValue, status: string)

  /** `field.toLowerCase().includes(wanted.toLowerCase())`. */
  predicate Mentions(field: string, wanted: string)
  {
    Contains(ToLower(field), ToLower(wanted))
  }

  function AtLocation(wanted: string): Activity -> bool
  {
    (a: Activity) => Mentions(a.location, wanted)
  }

  function InCategory(wanted: string): Activity -> bool
  {
    (a: Activity) => Mentions(a.categoryName, wanted)
  }

  function WithBackendStatus(wanted: string): Activity -> bool
  {
    (a: Activity) => a.status == wanted
  }

  function WithStatus(wanted: string): CharityEvent -> bool
  {
    (e: CharityEvent) => StatusName(e.status) == wanted
  }

  /** The location and category filters, on the backend records. */
  function ByPlace(rows: seq<Activity>, p: SearchParams): seq<Activity>
  {
    Narrow(Narrow(rows, p.location != "", AtLocation(p.location)),
      Truthy(p.category), InCategory(ToText(p.category)))
  }

  /** The location and category tests, judged one record at a time. */
  predicate AtPlace(a: Activity, p: SearchParams)
  {
    && (p.location != "" ==> Mentions(a.location, p.location))
    && (Truthy(p.category) ==> Mentions(a.categoryName, ToText(p.category)))
  }

  /** The activities a search keeps, judged one by one. */
  predicate Wanted(a: Activity, p: SearchParams, clock: Clock)
  {
    AtPlace(a, p) && (p.status != "" ==> StatusName(Convert(a, clock).status) == p.status)
  }

  /** The location and category filters keep exactly the records that pass both. */
  lemma PlaceExact(rows: seq<Activity>, p: SearchParams)
    ensures forall b | b in ByPlace(rows, p) :: b in rows && AtPlace(b, p)
    ensures forall b | b in rows && AtPlace(b, p) :: b in ByPlace(rows, p)
  {
    var first := Narrow(rows, p.location != "", AtLocation(p.location));
    var place := ByPlace(rows, p);
    forall b | b in place
      ensures b in rows && AtPlace(b, p)
    {
      var i :| 0 <= i < |place| && place[i] == b;
      assert b in first;
    }
    forall b | b in rows && AtPlace(b, p)
      ensures b in place
    {
      var i :| 0 <= i < |rows| && rows[i] == b;
      assert b in first;
      var j :| 0 <= j < |first| && first[j] == b;
    }
  }

  /** `searchEvents` as written: the status filter runs on the backend records,
      before conversion, and so compares the backend's `normal`/`hidden`. */
  function SearchEventsAsWritten(reply: ApiReply, p: SearchParams, clock: Clock): (r: ClientReply<seq<CharityEvent>>)
    ensures r.success <==> Accepted(reply)
    ensures r.success ==> r.data.Some? && r.total == Some(|r.data.value|)
  {
    if Accepted(reply) then
      var kept := Narrow(ByPlace(reply.data.value, p), p.status != "", WithBackendStatus(p.status));
      var events := ConvertAll(kept, clock);
      ClientReply(true, reply.code, reply.msg, Some(events), Some(|events|), None)
    else FailureReply(reply, "Failed to search events")
  }

  /** As written, a search for any display status finds nothing among records
      whose backend status is `normal` or `hidden`. */
  lemma AsWrittenStatusFindsNothing(reply: ApiReply, p: SearchParams, clock: Clock)
    requires Accepted(reply)
    requires forall a | a in reply.data.value :: a.status == "normal" || a.status == "hidden"
    requires IsStatusName(p.status)
    ensures SearchEventsAsWritten(reply, p, clock).data == Some([])
  {
  }

  /** The concrete case: one `normal` activity dated after now converts to an
      upcoming event, yet the search for upcoming events returns none. */
  lemma UpcomingSearchMissesUpcomingEvent()
    ensures var clock := Clock(0, "1970-01-01T00:00:00.000Z", 0, (t: string) => Int(1000), (n: int) => "");
      var a := Activity(1, "Charity run", "", "", "normal", "", "", None, "1970-01-01 00:00:01", "Beijing",
        None, None, "", None, None, None, None, "", "", "", None, None, None, None, Missing);
      var reply := ApiReply(200, "ok", Some([a]));
      && Convert(a, clock).status == Upcoming
      && SearchEventsAsWritten(reply, SearchParams("", Text(""), "upcoming"), clock).data == Some([])
      && SearchEvents(reply, SearchParams("", Text(""), "upcoming"), clock).data == Some([Convert(a, clock)])
  {
    var clock := Clock(0, "1970-01-01T00:00:00.000Z", 0, (t: string) => Int(1000), (n: int) => "");
    var a := Activity(1, "Charity run", "", "", "normal", "", "", None, "1970-01-01 00:00:01", "Beijing",
      None, None, "", None, None, None, None, "", "", "", None, None, None, None, Missing);
    var reply := ApiReply(200, "ok", Some([a]));
    AsWrittenStatusFindsNothing(reply, SearchParams("", Text(""), "upcoming"), clock);
    var events := ConvertAll([a], clock);
    assert events == [Convert(a, clock)];
    assert WithStatus("upcoming")(events[0]);
    FilterAll(events, WithStatus("upcoming"));
  }

  /** `searchEvents` as evidently intended: the location and category filters
      on the backend records, then the status filter on the converted events. */
  function SearchEvents(reply: ApiReply, p: SearchParams, clock: Clock): (r: ClientReply<seq<CharityEvent>>)
    ensures r.success <==> Accepted(reply)
    ensures r.success ==> r.data.Some? && r.total == Some(|r.data.value|)
  {
    if Accepted(reply) then
      var events := Narrow(ConvertAll(ByPlace(reply.data.value, p), clock), p.status != "", WithStatus(p.status));
      ClientReply(true, reply.code, reply.msg, Some(events), Some(|events|), None)
    else FailureReply(reply, "Failed to search events")
  }

  /** Every event the search returns has the requested status. */
  lemma SearchStatusExact(reply: ApiReply, p: SearchParams, clock: Clock)
    requires Accepted(reply) && p.status != ""
    ensures forall e | e in SearchEvents(reply, p, clock).data.value :: StatusName(e.status) == p.status
  {
    var events := SearchEvents(reply, p, clock).data.value;
    forall e | e in events
      ensures StatusName(e.status) == p.status
    {
      var i :| 0 <= i < |events| && events[i] == e;
    }
  }

  /** Every event the search returns is a listed activity, converted, that
      passes all three filters. */
  lemma SearchSound(reply: ApiReply, p: SearchParams, clock: Clock)
    requires Accepted(reply)
    ensures forall e | e in SearchEvents(reply, p, clock).data.value ::
      exists a | a in reply.data.value :: e == Convert(a, clock) && Wanted(a, p, clock)
  {
    var rows := reply.data.value;
    var place := ByPlace(rows, p);
    var all := ConvertAll(place, clock);
    var events := SearchEvents(reply, p, clock).data.value;
    PlaceExact(rows, p);
    forall e | e in events
      ensures exists a | a in rows :: e == Convert(a, clock) && Wanted(a, p, clock)
    {
      var i :| 0 <= i < |events| && events[i] == e;
      assert e in all;
      var j :| 0 <= j < |all| && all[j] == e;
      assert place[j] in place;
    }
  }

  /** Every listed activity that passes all three filters is in the result. */
  lemma SearchComplete(reply: ApiReply, p: SearchParams, clock: Clock, a: Activity)
    requires Accepted(reply) && a in reply.data.value && Wanted(a, p, clock)
    ensures Convert(a, clock) in SearchEvents(reply, p, clock).data.value
  {
    var place := ByPlace(reply.data.value, p);
    var all := ConvertAll(place, clock);
    PlaceExact(reply.data.value, p);
    var k :| 0 <= k < |place| && place[k] == a;
    assert all[k] == Convert(a, clock);
  }

  /** Converting keeps the order relation: a subsequence of records converts
      to a subsequence of events. */
  lemma {:induction false} ConvertSubsequence(a: seq<Activity>, b: seq<Activity>, clock: Clock)
    requires IsSubsequence(a, b)
    ensures IsSubsequence(ConvertAll(a, clock), ConvertAll(b, clock))
    decreases |b|
  {
    if a != [] {
      assert ConvertAll(a, clock)[1..] == ConvertAll(a[1..], clock);
      assert ConvertAll(b, clock)[1..] == ConvertAll(b[1..], clock);
      if a[0] == b[0] {
        ConvertSubsequence(a[1..], b[1..], clock);
      } else {
        ConvertSubsequence(a, b[1..], clock);
        if ConvertAll(a, clock)[0] == ConvertAll(b, clock)[0] {
          SubsequenceTail(ConvertAll(a, clock), ConvertAll(b, clock)[1..]);
        }
      }
    }
  }

  /** The search only narrows the listing: its events are the listed events,
      some left out, in the listed order. */
  lemma SearchWithinListing(reply: ApiReply, p: SearchParams, clock: Clock)
    requires Accepted(reply)
    ensures IsSubsequence(SearchEvents(reply, p, clock).data.value, GetEvents(reply, clock).data.value)
  {
    var rows := reply.data.value;
    var place := ByPlace(rows, p);
    var first := Narrow(rows, p.location != "", AtLocation(p.location));
    SubsequenceTrans(place, first, rows);
    ConvertSubsequence(place, rows, clock);
    SubsequenceTrans(SearchEvents(reply, p, clock).data.value, ConvertAll(place, clock), ConvertAll(rows, clock));
  }

  // ---------------------------------------------------------------------------
  // getLocations

  /** The eight cities shown when the backend fails. */
  const FallbackCities: seq<string> := ["北京", "上海", "广州", "深圳", "杭州", "成都", "武汉", "西安"]

  function LocationsOf(rows: seq<Activity>): (r: seq<string>)
    ensures |r| == |rows|
    ensures forall i | 0 <= i < |rows| :: r[i] == rows[i].location
  {
    seq(|rows|, i requires 0 <= i < |rows| => rows[i].location)
  }

  /** `getLocations`: each listed location once; the fixed city list, still as
      a success, when the backend fails. */
  function GetLocations(reply: ApiReply): (r: ClientReply<seq<string>>)
    ensures r.success && r.data.Some?
    ensures Accepted(reply) ==> NoDuplicates(r.data.value) && r.total == Some(|r.data.value|)
    ensures Accepted(reply) ==> forall a | a in reply.data.value :: a.location in r.data.value
    ensures Accepted(reply) ==> forall l | l in r.data.value :: exists a | a in reply.data.value :: a.location == l
    ensures !Accepted(reply) ==> r.code == 200 && r.data == Some(FallbackCities)
  {
    if Accepted(reply) then
      var rows := reply.data.value;
      var names := LocationsOf(rows);
      var locations := Dedupe(names);
      assert forall a | a in rows :: a.location in names;
      assert forall l | l in locations :: exists i | 0 <= i < |rows| :: rows[i].location == l;
      ClientReply(true, reply.code, reply.msg, Some(locations), Some(|locations|), None)
    else ClientReply(true, 200, "success", Some(FallbackCities), None, None)
  }

  /** The distinct locations keep the order in which they are first listed. */
  lemma LocationsInOrder(reply: ApiReply)
    requires Accepted(reply)
    ensures var names, r := LocationsOf(reply.data.value), GetLocations(reply).data.value;
      && IsSubsequence(r, names)
      && InFirstOrder(r, names)
  {
    var names := LocationsOf(reply.data.value);
    assert GetLocations(reply).data.value == Dedupe(names);
    DedupeSubsequence(names);
    DedupeFirstOrder(names);
  }
}
