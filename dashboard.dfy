/**
 * What the dashboard computes from the cached requests and statuses: the badge
 * colour of a status name, the date format, the three status counters, the five
 * most recent requests, the overdue mark and the first name in the greeting.
 */
module Dashboard {
  import opened Wrappers
  import opened Seqs
  import opened Text
  import opened Entities

  /** The names the counters count. */
  const Pending := "Pendente"
  const InProgress := "Em Andamento"
  const Delivered := "Entregue"

  predicate NamedAs(s: Status, name: string) { s.name == name }

  /** `StatusBadge`: the colour of the first status with that name, or `gray` when there is none or it is empty. */
  function BadgeColor(statuses: seq<Status>, name: string): (color: string)
    ensures color != ""
    ensures (forall i :: 0 <= i < |statuses| ==> statuses[i].name != name) ==> color == "gray"
    ensures forall i ::
      (0 <= i < |statuses| && statuses[i].name == name && forall j :: 0 <= j < i ==> statuses[j].name != name) ==>
        color == (if statuses[i].color != "" then statuses[i].color else "gray")
  {
    var found := Find(statuses, s => NamedAs(s, name));
    if found.Some? && found.value.color != "" then found.value.color else "gray"
  }

  /** `formatDate`: `N/A` for a missing or empty date, else the `-`-separated parts in reverse order. */
  function FormatDate(date: Option<string>): (r: string)
    ensures r == "N/A" <==> date.None? || date.value == ""
  {
    if date.None? || date.value == "" then "N/A"
    else
      var parts := Split(date.value, '-');
      var year := parts[0];
      var month := if |parts| > 1 then parts[1] else "undefined";
      var day := if |parts| > 2 then parts[2] else "undefined";
      var r := day + "/" + month + "/" + year;
      assert r[|day|] == '/' && r[|day| + 1 + |month|] == '/';
      r
  }

  /** An ISO date `Y-M-D` is shown as `D/M/Y`. */
  lemma FormatIsoDate(year: string, month: string, day: string)
    requires '-' !in year && '-' !in month && '-' !in day
    ensures FormatDate(Some(year + "-" + month + "-" + day)) == day + "/" + month + "/" + year
  {
    var s := year + "-" + month + "-" + day;
    assert s == year + ['-'] + (month + ['-'] + day);
    SplitAtFirst(year, '-', month + ['-'] + day);
    SplitAtFirst(month, '-', day);
    SplitNoSeparator(day, '-');
    assert Split(s, '-') == [year, month, day];
  }

  /** `requests.filter(r => r.status === name)` */
  function WithStatus(requests: seq<Request>, name: string): seq<Request>
  {
    Filter(requests, (r: Request) => r.status == name)
  }

  /** The counters count exactly the requests whose status is the name; distinct names count apart. */
  lemma {:induction false} CountersBounded(requests: seq<Request>, a: string, b: string, c: string)
    requires a != b && b != c && a != c
    ensures |WithStatus(requests, a)| + |WithStatus(requests, b)| + |WithStatus(requests, c)| <= |requests|
  {
    if requests != [] {
      CountersBounded(requests[1..], a, b, c);
    }
  }

  /** The dashboard's pending, in-progress and delivered counters never exceed the total. */
  lemma DashboardCounters(requests: seq<Request>)
    ensures |WithStatus(requests, Pending)| + |WithStatus(requests, InProgress)| + |WithStatus(requests, Delivered)|
      <= |requests|
    ensures forall i :: 0 <= i < |WithStatus(requests, Pending)| ==> WithStatus(requests, Pending)[i].status == Pending
    ensures forall i :: 0 <= i < |WithStatus(requests, InProgress)| ==>
      WithStatus(requests, InProgress)[i].status == InProgress
    ensures forall i :: 0 <= i < |WithStatus(requests, Delivered)| ==>
      WithStatus(requests, Delivered)[i].status == Delivered
    ensures forall i :: 0 <= i < |requests| ==>
      && (requests[i].status == Pending ==> requests[i] in WithStatus(requests, Pending))
      && (requests[i].status == InProgress ==> requests[i] in WithStatus(requests, InProgress))
      && (requests[i].status == Delivered ==> requests[i] in WithStatus(requests, Delivered))
  {
    CountersBounded(requests, Pending, InProgress, Delivered);
  }

  /** `requests.slice(0, 5)` */
  function Recent(requests: seq<Request>): (r: seq<Request>)
    ensures r <= requests
    ensures |r| == if |requests| < 5 then |requests| else 5
  {
    if |requests| < 5 then requests else requests[..5]
  }

  /** `new Date().toISOString().split('T')[0]`: the date part of an ISO timestamp. */
  function Today(iso: string): string
  {
    BeforeFirst(iso, 'T')
  }

  lemma TodayOfTimestamp(date: string, time: string)
    requires 'T' !in date
    ensures Today(date + "T" + time) == date
  {
    SplitAtFirst(date, 'T', time);
  }

  /** A request is overdue when it has a delivery date before today and is not delivered. */
  predicate IsOverdue(r: Request, today: string)
  {
    r.deliveryDate != "" && Less(r.deliveryDate, today) && r.status != Delivered
  }

  /**
   * A delivered request is never overdue, nor one due today; and an overdue request
   * stays overdue on every later day.
   */
  lemma OverdueSpec(r: Request, today: string, later: string)
    ensures r.status == Delivered ==> !IsOverdue(r, today)
    ensures !IsOverdue(r, r.deliveryDate)
    ensures IsOverdue(r, today) && Less(today, later) ==> IsOverdue(r, later)
  {
    LessIrreflexive(r.deliveryDate);
    if IsOverdue(r, today) && Less(today, later) {
      LessTransitive(r.deliveryDate, today, later);
    }
  }

  /** `name.split(' ')[0]`: the name up to its first space. */
  function FirstName(name: string): string
  {
    BeforeFirst(name, ' ')
  }

  /** The first name is what comes before the first space, or the whole name when it has none. */
  lemma FirstNameSpec(first: string, rest: string)
    requires ' ' !in first
    ensures FirstName(first + " " + rest) == first
    ensures FirstName(first) == first
  {
    SplitAtFirst(first, ' ', rest);
    SplitNoSeparator(first, ' ');
  }

  /** `user?.name.split(' ')[0]`: no greeting name when nobody is signed in. */
  function Greeting(user: Option<User>): (r: Option<string>)
    ensures r.Some? <==> user.Some?
  {
    if user.Some? then Some(FirstName(user.value.name)) else None
  }
}
